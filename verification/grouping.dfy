/** `from_data`: one timeline per service name, in the order the names first
    appear, each fed that service's observations in input order. The source
    keeps the timelines in a dictionary keyed by name and returns its values;
    a dictionary preserves insertion order, which this model keeps as a
    sequence. No sorting takes place.
 */
module Grouping {
  import opened Timelines
  import Metrics

  /** Some observation is about `name`. */
  predicate Seen(data: seq<GatusData>, name: string) {
    exists k :: 0 <= k < |data| && data[k].labber == name
  }

  /** Position of the first observation about `name`. */
  function FirstIndex(data: seq<GatusData>, name: string): (r: nat)
    requires Seen(data, name)
    ensures r < |data| && data[r].labber == name
    ensures forall k :: 0 <= k < r ==> data[k].labber != name
  {
    if data[0].labber == name then 0
    else
      assert Seen(data[1..], name) by {
        var k :| 0 <= k < |data| && data[k].labber == name;
        assert data[1..][k - 1] == data[k];
      }
      1 + FirstIndex(data[1..], name)
  }

  /** The observations about `name`, in input order. */
  function Select(data: seq<GatusData>, name: string): (r: seq<GatusData>)
    ensures |r| <= |data|
  {
    if data == [] then []
    else Select(Init(data), name) + (if Last(data).labber == name then [Last(data)] else [])
  }

  /** Index of the timeline called `name`, or -1 if there is none (the
      dictionary lookup `name in timelines`). */
  function Find(timelines: seq<GatusTimeline>, name: string): (r: int)
    ensures -1 <= r < |timelines|
    ensures r == -1 <==> forall i :: 0 <= i < |timelines| ==> timelines[i].name != name
    ensures r >= 0 ==> timelines[r].name == name
  {
    if timelines == [] then -1
    else if Last(timelines).name == name then |timelines| - 1
    else Find(Init(timelines), name)
  }

  /** One iteration of `from_data`: create the timeline for a new name if
      needed, then add the entry to that name's timeline. */
  function Insert(timelines: seq<GatusTimeline>, entry: GatusData): (r: seq<GatusTimeline>)
    ensures |r| == if Find(timelines, entry.labber) == -1 then |timelines| + 1 else |timelines|
    ensures forall i :: 0 <= i < |timelines| ==> r[i].name == timelines[i].name
    ensures forall i :: 0 <= i < |timelines| && timelines[i].name != entry.labber ==> r[i] == timelines[i]
    ensures |r| > |timelines| ==> r[|timelines|] == GatusTimeline(entry.labber, AddEntry([], entry))
    ensures Find(timelines, entry.labber) >= 0 ==>
              r[Find(timelines, entry.labber)].history
              == AddEntry(timelines[Find(timelines, entry.labber)].history, entry)
  {
    var idx := Find(timelines, entry.labber);
    if idx == -1 then timelines + [GatusTimeline(entry.labber, AddEntry([], entry))]
    else timelines[idx := GatusTimeline(entry.labber, AddEntry(timelines[idx].history, entry))]
  }

  /** `from_data`: feed every observation, in order, to its name's timeline. */
  function FromData(data: seq<GatusData>): (timelines: seq<GatusTimeline>)
    ensures |timelines| <= |data|
  {
    if data == [] then [] else Insert(FromData(Init(data)), Last(data))
  }

  // ---------------------------------------------------------------------------
  // Facts about one more observation
  // ---------------------------------------------------------------------------

  lemma SeenSnoc(data: seq<GatusData>, entry: GatusData, name: string)
    ensures Seen(data + [entry], name) <==> Seen(data, name) || entry.labber == name
  {
    var all := data + [entry];
    if Seen(data, name) {
      var k :| 0 <= k < |data| && data[k].labber == name;
      assert all[k] == data[k];
    }
    if entry.labber == name {
      assert all[|data|] == entry;
    }
    if Seen(all, name) && entry.labber != name {
      var k :| 0 <= k < |all| && all[k].labber == name;
      assert data[k] == all[k];
    }
  }

  /** Adding an observation at the end does not move a name's first index,
      and a name not seen before is first seen at the new position. */
  lemma FirstIndexSnoc(data: seq<GatusData>, entry: GatusData, name: string)
    requires Seen(data, name) || entry.labber == name
    ensures Seen(data + [entry], name)
    ensures FirstIndex(data + [entry], name) == if Seen(data, name) then FirstIndex(data, name) else |data|
  {
    var all := data + [entry];
    SeenSnoc(data, entry, name);
    assert forall k :: 0 <= k < |data| ==> all[k] == data[k];
    if Seen(data, name) {
      var f := FirstIndex(data, name);
      assert all[f] == data[f];
    }
  }

  lemma FoldSnoc(entries: seq<GatusData>, entry: GatusData)
    ensures Fold(entries + [entry]) == AddEntry(Fold(entries), entry)
  {
    assert Init(entries + [entry]) == entries;
  }

  lemma SelectSnoc(data: seq<GatusData>, entry: GatusData, name: string)
    ensures Select(data + [entry], name)
            == Select(data, name) + (if entry.labber == name then [entry] else [])
  {
    assert Init(data + [entry]) == data;
  }

  /** With no observation about `name`, nothing is selected. */
  lemma {:induction false} SelectUnseen(data: seq<GatusData>, name: string)
    requires !Seen(data, name)
    ensures Select(data, name) == []
  {
    if data != [] {
      assert data == Init(data) + [Last(data)];
      SeenSnoc(Init(data), Last(data), name);
      SelectUnseen(Init(data), name);
    }
  }

  /** A seen name's selection starts with its first observation. */
  lemma {:induction false} SelectFirst(data: seq<GatusData>, name: string)
    requires Seen(data, name)
    ensures |Select(data, name)| > 0 && Select(data, name)[0] == data[FirstIndex(data, name)]
  {
    var p, e := Init(data), Last(data);
    assert data == p + [e];
    SeenSnoc(p, e, name);
    FirstIndexSnoc(p, e, name);
    if Seen(p, name) {
      SelectFirst(p, name);
      assert p[FirstIndex(p, name)] == data[FirstIndex(p, name)];
    } else {
      SelectUnseen(p, name);
    }
  }

  /** Selection keeps only observations of the input and their relative
      order, so ordered input yields an ordered selection. */
  lemma {:induction false} SelectSorted(data: seq<GatusData>, name: string)
    requires Sorted(data)
    ensures Sorted(Select(data, name))
    ensures forall k :: 0 <= k < |Select(data, name)| ==> Select(data, name)[k] in data
  {
    if data != [] {
      var prefix := Init(data);
      assert Sorted(prefix);
      SelectSorted(prefix, name);
      var s := Select(prefix, name);
      forall k | 0 <= k < |s| ensures s[k].date <= Last(data).date {
        var j :| 0 <= j < |prefix| && prefix[j] == s[k];
        assert prefix[j] == data[j];
      }
    }
  }

  // ---------------------------------------------------------------------------
  // Properties of `from_data`
  // ---------------------------------------------------------------------------

  /** Every timeline is named after an observation in `data`. */
  predicate NamedFrom(data: seq<GatusData>, ts: seq<GatusTimeline>) {
    forall i :: 0 <= i < |ts| ==> Seen(data, ts[i].name)
  }

  /** Timelines appear in strictly increasing order of the first
      observation of their names. */
  predicate InFirstSeenOrder(data: seq<GatusData>, ts: seq<GatusTimeline>) {
    forall i, j :: 0 <= i < j < |ts| ==>
      Seen(data, ts[i].name) && Seen(data, ts[j].name)
      && FirstIndex(data, ts[i].name) < FirstIndex(data, ts[j].name)
  }

  /** Every observed name has a timeline. */
  ghost predicate Covers(ts: seq<GatusTimeline>, data: seq<GatusData>) {
    forall name :: Seen(data, name) ==> Find(ts, name) != -1
  }

  /** One step of `from_data` keeps names tied to observations. */
  lemma NamesStep(p: seq<GatusData>, e: GatusData, ts: seq<GatusTimeline>)
    requires NamedFrom(p, ts) && Covers(ts, p)
    ensures NamedFrom(p + [e], Insert(ts, e)) && Covers(Insert(ts, e), p + [e])
  {
    var r := Insert(ts, e);
    forall i | 0 <= i < |r| ensures Seen(p + [e], r[i].name) {
      SeenSnoc(p, e, r[i].name);
      if i < |ts| {
        assert r[i].name == ts[i].name;
      }
    }
    forall name | Seen(p + [e], name) ensures Find(r, name) != -1 {
      SeenSnoc(p, e, name);
      if Seen(p, name) {
        var i := Find(ts, name);
        assert r[i].name == name;
      } else {
        assert Find(ts, name) == -1;
        assert r[|ts|].name == name;
      }
    }
  }

  /** Every timeline is named after some observation (no name is invented),
      and every observed name has a timeline. */
  lemma {:induction false} FromDataNames(data: seq<GatusData>)
    ensures NamedFrom(data, FromData(data)) && Covers(FromData(data), data)
  {
    if data != [] {
      var p, e := Init(data), Last(data);
      assert data == p + [e];
      FromDataNames(p);
      NamesStep(p, e, FromData(p));
      assert FromData(data) == Insert(FromData(p), e);
    }
  }

  /** Each observation's name has a timeline. */
  lemma FromDataCoversEach(data: seq<GatusData>, k: nat)
    requires k < |data|
    ensures Find(FromData(data), data[k].labber) != -1
  {
    FromDataNames(data);
    assert Seen(data, data[k].labber);
  }

  /** Two timelines keep their relative first-seen order after one more
      observation, whether the later one existed already or is the new one. */
  lemma OrderPair(p: seq<GatusData>, e: GatusData, ts: seq<GatusTimeline>, i: nat, j: nat)
    requires i < j < |Insert(ts, e)| && i < |ts|
    requires Seen(p, ts[i].name)
    requires j < |ts| ==> Seen(p, ts[j].name) && FirstIndex(p, ts[i].name) < FirstIndex(p, ts[j].name)
    requires Seen(p, e.labber) ==> Find(ts, e.labber) != -1
    ensures Seen(p + [e], Insert(ts, e)[i].name) && Seen(p + [e], Insert(ts, e)[j].name)
    ensures FirstIndex(p + [e], Insert(ts, e)[i].name) < FirstIndex(p + [e], Insert(ts, e)[j].name)
  {
    var r := Insert(ts, e);
    assert r[i].name == ts[i].name;
    FirstIndexSnoc(p, e, ts[i].name);
    if j < |ts| {
      assert r[j].name == ts[j].name;
      FirstIndexSnoc(p, e, ts[j].name);
    } else {
      assert r[j].name == e.labber;
      FirstIndexSnoc(p, e, e.labber);
    }
  }

  /** One step of `from_data` keeps timelines in first-seen order. */
  lemma OrderStep(p: seq<GatusData>, e: GatusData, ts: seq<GatusTimeline>)
    requires NamedFrom(p, ts) && InFirstSeenOrder(p, ts)
    requires Seen(p, e.labber) ==> Find(ts, e.labber) != -1
    ensures InFirstSeenOrder(p + [e], Insert(ts, e))
  {
    var r := Insert(ts, e);
    forall i, j | 0 <= i < j < |r|
      ensures Seen(p + [e], r[i].name) && Seen(p + [e], r[j].name)
              && FirstIndex(p + [e], r[i].name) < FirstIndex(p + [e], r[j].name)
    {
      assert i < |ts|;
      assert Seen(p, ts[i].name);
      OrderPair(p, e, ts, i, j);
    }
  }

  /** Timelines come in the order their names are first seen. */
  lemma {:induction false} FromDataOrder(data: seq<GatusData>)
    ensures InFirstSeenOrder(data, FromData(data))
  {
    if data != [] {
      var p, e := Init(data), Last(data);
      assert data == p + [e];
      FromDataOrder(p);
      FromDataNames(p);
      assert NamedFrom(p, FromData(p));
      OrderStep(p, e, FromData(p));
      assert FromData(data) == Insert(FromData(p), e);
    }
  }

  /** No two timelines share a name. */
  predicate DistinctNames(ts: seq<GatusTimeline>) {
    forall i, j :: 0 <= i < j < |ts| ==> ts[i].name != ts[j].name
  }

  /** Each timeline holds the fold of its own name's observations. */
  predicate HistoriesOf(data: seq<GatusData>, ts: seq<GatusTimeline>) {
    forall i :: 0 <= i < |ts| ==> ts[i].history == Fold(Select(data, ts[i].name))
  }

  /** No two timelines share a name. */
  lemma FromDataDistinct(data: seq<GatusData>)
    ensures DistinctNames(FromData(data))
  {
    FromDataOrder(data);
    forall i, j | 0 <= i < j < |FromData(data)| ensures FromData(data)[i].name != FromData(data)[j].name {
      assert FirstIndex(data, FromData(data)[i].name) < FirstIndex(data, FromData(data)[j].name);
    }
  }

  /** A timeline for another name is left as it was. */
  lemma HistoryOther(p: seq<GatusData>, e: GatusData, ts: seq<GatusTimeline>, i: nat)
    requires i < |ts| && ts[i].name != e.labber
    requires ts[i].history == Fold(Select(p, ts[i].name))
    ensures Insert(ts, e)[i].history == Fold(Select(p + [e], Insert(ts, e)[i].name))
  {
    var r := Insert(ts, e);
    assert r[i] == ts[i];
    SelectSnoc(p, e, ts[i].name);
    assert Select(p + [e], ts[i].name) == Select(p, ts[i].name) + [];
    assert Select(p, ts[i].name) + [] == Select(p, ts[i].name);
  }

  /** The entry's existing timeline is fed the entry. */
  lemma HistoryExisting(p: seq<GatusData>, e: GatusData, ts: seq<GatusTimeline>)
    requires Find(ts, e.labber) != -1
    requires ts[Find(ts, e.labber)].history == Fold(Select(p, e.labber))
    ensures Insert(ts, e)[Find(ts, e.labber)].history
            == Fold(Select(p + [e], Insert(ts, e)[Find(ts, e.labber)].name))
  {
    var i := Find(ts, e.labber);
    var r := Insert(ts, e);
    assert r[i].name == e.labber;
    SelectSnoc(p, e, e.labber);
    var sel := Select(p, e.labber);
    FoldSnoc(sel, e);
    assert r[i].history == AddEntry(Fold(sel), e);
  }

  /** A new name's timeline holds just the seed from the entry. */
  lemma HistoryNew(p: seq<GatusData>, e: GatusData, ts: seq<GatusTimeline>)
    requires Find(ts, e.labber) == -1 && !Seen(p, e.labber)
    ensures Insert(ts, e)[|ts|].history == Fold(Select(p + [e], Insert(ts, e)[|ts|].name))
  {
    var r := Insert(ts, e);
    assert r[|ts|] == GatusTimeline(e.labber, AddEntry([], e));
    SelectSnoc(p, e, e.labber);
    SelectUnseen(p, e.labber);
    FoldSnoc([], e);
    assert Select(p + [e], e.labber) == [e];
  }

  /** One step of `from_data` feeds the entry to its own timeline only. */
  lemma HistoriesStep(p: seq<GatusData>, e: GatusData, ts: seq<GatusTimeline>)
    requires HistoriesOf(p, ts) && DistinctNames(ts)
    requires Seen(p, e.labber) ==> Find(ts, e.labber) != -1
    ensures HistoriesOf(p + [e], Insert(ts, e))
  {
    var r := Insert(ts, e);
    var idx := Find(ts, e.labber);
    forall i | 0 <= i < |r|
      ensures r[i].history == Fold(Select(p + [e], r[i].name))
    {
      if i < |ts| && ts[i].name != e.labber {
        HistoryOther(p, e, ts, i);
      } else if i < |ts| {
        assert idx != -1 && ts[idx].name == ts[i].name;
        assert i == idx;
        HistoryExisting(p, e, ts);
      } else {
        assert idx == -1 && i == |ts|;
        HistoryNew(p, e, ts);
      }
    }
  }

  /** Each timeline holds the fold of exactly its own name's observations,
      in input order. */
  lemma {:induction false} FromDataHistories(data: seq<GatusData>)
    ensures HistoriesOf(data, FromData(data))
  {
    if data != [] {
      var p, e := Init(data), Last(data);
      assert data == p + [e];
      FromDataHistories(p);
      FromDataNames(p);
      FromDataDistinct(p);
      HistoriesStep(p, e, FromData(p));
      assert FromData(data) == Insert(FromData(p), e);
    }
  }

  /** Every timeline is non-empty: its first leg is the seed built from
      the first observation of its name. */
  lemma FromDataNonEmpty(data: seq<GatusData>)
    ensures forall i :: 0 <= i < |FromData(data)| ==>
              Seen(data, FromData(data)[i].name)
              && |FromData(data)[i].history| > 0
              && FromData(data)[i].history[0]
                 == GatusEvent(0, data[FirstIndex(data, FromData(data)[i].name)].date,
                               !data[FirstIndex(data, FromData(data)[i].name)].status)
  {
    FromDataNames(data);
    FromDataHistories(data);
    forall i | 0 <= i < |FromData(data)|
      ensures |FromData(data)[i].history| > 0
      ensures FromData(data)[i].history[0]
              == GatusEvent(0, data[FirstIndex(data, FromData(data)[i].name)].date,
                            !data[FirstIndex(data, FromData(data)[i].name)].status)
    {
      var name := FromData(data)[i].name;
      SelectFirst(data, name);
      FoldSeed(Select(data, name));
    }
  }

  /** End to end, for the service of observation `k`: it has a timeline,
      whose up time plus down time is the time since that service's first
      observation; with the input in date order and `now` after every
      observation, its uptime lies between 0 and 100. */
  lemma GroupMetrics(data: seq<GatusData>, now: int, k: nat)
    requires k < |data|
    ensures Find(FromData(data), data[k].labber) != -1
    ensures var t := FromData(data)[Find(FromData(data), data[k].labber)];
            && t.name == data[k].labber && |t.history| > 0
            && TotalTimeUp(t, now) + TotalTimeDown(t, now) == now - data[FirstIndex(data, t.name)].date
            && (Sorted(data) && (forall j :: 0 <= j < |data| ==> data[j].date <= now) ==>
                  0.0 <= Metrics.TimelineUptime(t, now) <= 100.0)
  {
    FromDataCoversEach(data, k);
    var i := Find(FromData(data), data[k].labber);
    var t := FromData(data)[i];
    FromDataHistories(data);
    assert Seen(data, t.name);
    var s := Select(data, t.name);
    SelectFirst(data, t.name);
    assert t == GatusTimeline(t.name, Fold(s));
    ElapsedSinceFirstObservation(t.name, s, now);
    if Sorted(data) && (forall j :: 0 <= j < |data| ==> data[j].date <= now) {
      SelectSorted(data, t.name);
      assert Last(s) in data;
      Metrics.UptimeInRange(t.name, s, now);
    }
  }
}
