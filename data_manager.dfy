/**
 * The data manager of the channel graph: it buckets frequencies, picks the
 * records that belong to one channel pair, turns a record into the five
 * points of its curve, and hands each record's curve to the graph wrapper.
 */
module DataManager {
  import opened WiFiModel
  import opened GraphTools

  /** Width of a frequency bucket, in MHz. */
  const FrequencyUnits: int := 5
  /** Distance from a curve's edge to its shoulder, in MHz. */
  const FrequencySpread: int := 5
  /** Half of the 20 MHz channel width. */
  const HalfWidth: int := 10
  /** The level a curve drops to outside its channel, in dBm. */
  const MinY: int := -100

  // ---------------------------------------------------------------------
  // frequencyAdjustment

  /** Rounds a frequency down to the start of its 5 MHz bucket. */
  function FrequencyAdjustment(frequency: nat): (r: nat)
    ensures r % FrequencyUnits == 0
    ensures r <= frequency < r + FrequencyUnits
  {
    frequency - frequency % FrequencyUnits
  }

  /** The bucket start is the greatest multiple of 5 not above the frequency. */
  lemma FrequencyAdjustmentIsGreatest(frequency: nat, m: int)
    requires m % FrequencyUnits == 0 && m <= frequency
    ensures m <= FrequencyAdjustment(frequency)
  {
  }

  /** A frequency is left unchanged exactly when it is already a bucket start. */
  lemma FrequencyAdjustmentFixedPoints(frequency: nat)
    ensures FrequencyAdjustment(frequency) == frequency <==> frequency % FrequencyUnits == 0
  {
  }

  /** Adjusting twice is adjusting once. */
  lemma FrequencyAdjustmentIdempotent(frequency: nat)
    ensures FrequencyAdjustment(FrequencyAdjustment(frequency)) == FrequencyAdjustment(frequency)
  {
  }

  // ---------------------------------------------------------------------
  // getDataPoints

  /**
   * The curve of one record: the two channel edges at the floor level, and
   * the two shoulders and the centre at the record's level.
   */
  function DataPoints(d: WiFiDetail): (ps: seq<DataPoint>)
    ensures |ps| == 5
    ensures forall i, j :: 0 <= i < j < |ps| ==> ps[i].x < ps[j].x
    ensures ps[0].y == MinY && ps[4].y == MinY
    ensures ps[1].y == d.level && ps[2].y == d.level && ps[3].y == d.level
    ensures ps[2].x == d.frequency
    ensures ps[0].x == d.frequency - HalfWidth && ps[4].x == d.frequency + HalfWidth
    ensures ps[1].x == d.frequency - FrequencySpread && ps[3].x == d.frequency + FrequencySpread
    ensures ps[4].x - ps[0].x == 2 * HalfWidth
    ensures forall i :: 0 <= i < |ps| ==> ps[i].x + ps[4 - i].x == 2 * d.frequency && ps[i].y == ps[4 - i].y
  {
    var start := d.frequency - HalfWidth;
    var end := d.frequency + HalfWidth;
    [DataPoint(start, MinY),
     DataPoint(start + FrequencySpread, d.level),
     DataPoint(d.frequency, d.level),
     DataPoint(end - FrequencySpread, d.level),
     DataPoint(end, MinY)]
  }

  /** The levels of `ps` do not fall up to index `p` and do not rise after it. */
  predicate PeakAt(ps: seq<DataPoint>, p: int)
  {
    0 <= p < |ps| &&
    (forall i :: 0 < i <= p ==> ps[i - 1].y <= ps[i].y) &&
    (forall i :: p < i < |ps| ==> ps[i - 1].y >= ps[i].y)
  }

  /** A curve with a single peak: its levels rise, then fall. */
  ghost predicate RisesThenFalls(ps: seq<DataPoint>)
  {
    exists p :: PeakAt(ps, p)
  }

  /**
   * A record's curve has a single peak exactly when its level is not below
   * the floor, and then the peak is at the centre.
   */
  lemma DataPointsRiseThenFall(d: WiFiDetail)
    ensures RisesThenFalls(DataPoints(d)) <==> d.level >= MinY
    ensures d.level >= MinY ==> PeakAt(DataPoints(d), 2)
  {
    var ps := DataPoints(d);
    if d.level >= MinY {
      assert PeakAt(ps, 2);
    } else {
      forall p ensures !PeakAt(ps, p) {
        if p == 0 {
          assert ps[3].y < ps[4].y;
        } else {
          assert ps[0].y > ps[1].y;
        }
      }
    }
  }

  /** Two records have the same curve exactly when they have the same frequency and level. */
  lemma DataPointsDetermineSignal(a: WiFiDetail, b: WiFiDetail)
    ensures DataPoints(a) == DataPoints(b) <==> a.frequency == b.frequency && a.level == b.level
  {
  }

  // ---------------------------------------------------------------------
  // getNewSeries

  /** Whether a record's frequency lies in the pair's span, both boundaries included. */
  predicate InRange(d: WiFiDetail, pair: ChannelPair)
  {
    pair.first <= d.frequency <= pair.second
  }

  /**
   * The set of records in the pair's span. Where several records in the span
   * share an identity, the set keeps the first of them.
   */
  function GetNewSeries(ds: seq<WiFiDetail>, pair: ChannelPair): (m: DetailSet)
    ensures forall k :: k in m ==> m[k] in ds && InRange(m[k], pair)
  {
    if ds == [] then map[]
    else
      var rest := GetNewSeries(ds[1..], pair);
      if InRange(ds[0], pair) then rest[ds[0].Id() := ds[0]] else rest
  }

  /** An identity is in the result exactly when some record in the span has it. */
  lemma {:induction false} GetNewSeriesKeys(ds: seq<WiFiDetail>, pair: ChannelPair, k: Identity)
    ensures k in GetNewSeries(ds, pair) <==> exists i :: 0 <= i < |ds| && InRange(ds[i], pair) && ds[i].Id() == k
  {
    if ds != [] {
      GetNewSeriesKeys(ds[1..], pair, k);
      if k in GetNewSeries(ds[1..], pair) {
        var i :| 0 <= i < |ds[1..]| && InRange(ds[1..][i], pair) && ds[1..][i].Id() == k;
        assert ds[i + 1] == ds[1..][i];
      }
      if exists i :: 0 <= i < |ds| && InRange(ds[i], pair) && ds[i].Id() == k {
        var i :| 0 <= i < |ds| && InRange(ds[i], pair) && ds[i].Id() == k;
        if i > 0 {
          assert ds[1..][i - 1] == ds[i];
        }
      }
    }
  }

  /** `contains` on the result, for any record: by identity, as `GetNewSeriesKeys` says. */
  lemma {:induction false} GetNewSeriesContains(ds: seq<WiFiDetail>, pair: ChannelPair, d: WiFiDetail)
    ensures Contains(GetNewSeries(ds, pair), d) <==> exists i :: 0 <= i < |ds| && InRange(ds[i], pair) && ds[i].Id() == d.Id()
  {
    GetNewSeriesKeys(ds, pair, d.Id());
  }

  /** The record kept for an identity is the first record in the span with that identity. */
  lemma {:induction false} GetNewSeriesKeepsFirst(ds: seq<WiFiDetail>, pair: ChannelPair, i: nat)
    requires i < |ds| && InRange(ds[i], pair)
    requires forall j :: 0 <= j < i ==> !(InRange(ds[j], pair) && ds[j].Id() == ds[i].Id())
    ensures ds[i].Id() in GetNewSeries(ds, pair) && GetNewSeries(ds, pair)[ds[i].Id()] == ds[i]
  {
    if i > 0 {
      forall j | 0 <= j < i - 1
        ensures !(InRange(ds[1..][j], pair) && ds[1..][j].Id() == ds[1..][i - 1].Id())
      {
        assert ds[1..][j] == ds[j + 1];
      }
      GetNewSeriesKeepsFirst(ds[1..], pair, i - 1);
    }
  }

  /** The identities of the records in the span. */
  function InRangeIds(ds: seq<WiFiDetail>, pair: ChannelPair): set<Identity>
  {
    set i | 0 <= i < |ds| && InRange(ds[i], pair) :: ds[i].Id()
  }

  /** The result holds one record for each distinct identity in the span. */
  lemma {:induction false} GetNewSeriesSize(ds: seq<WiFiDetail>, pair: ChannelPair)
    ensures GetNewSeries(ds, pair).Keys == InRangeIds(ds, pair)
    ensures |GetNewSeries(ds, pair)| == |InRangeIds(ds, pair)|
  {
    var m := GetNewSeries(ds, pair);
    forall k ensures k in m <==> k in InRangeIds(ds, pair) {
      GetNewSeriesKeys(ds, pair, k);
    }
    assert m.Keys == InRangeIds(ds, pair);
  }

  /** Selecting again from the selected records gives the same set. */
  lemma {:induction false} GetNewSeriesIdempotent(ds: seq<WiFiDetail>, pair: ChannelPair, again: seq<WiFiDetail>)
    requires forall x :: x in again <==> x in GetNewSeries(ds, pair).Values
    ensures GetNewSeries(again, pair) == GetNewSeries(ds, pair)
  {
    var m, m2 := GetNewSeries(ds, pair), GetNewSeries(again, pair);
    forall k ensures k in m2 <==> k in m {
      GetNewSeriesKeys(again, pair, k);
      if k in m {
        assert m[k] in m.Values;
        var i :| 0 <= i < |again| && again[i] == m[k];
        assert InRange(again[i], pair) && again[i].Id() == k;
      }
      if k in m2 {
        assert m2[k] in again;
        var k' :| k' in m && m[k'] == m2[k];
        assert k' == k;
      }
    }
    forall k | k in m ensures m2[k] == m[k] {
      assert m2[k] in again;
      var k' :| k' in m && m[k'] == m2[k];
      assert k' == k;
    }
    assert m2.Keys == m.Keys;
  }

  // ---------------------------------------------------------------------
  // addSeriesData

  /** The call that follows the `isNewSeries` query for one record. */
  function Dispatch(isNew: WiFiDetail -> bool, d: WiFiDetail): Call
  {
    if isNew(d) then AddSeriesCall(d, TitleLineGraphSeries(DataPoints(d)), true)
    else UpdateSeriesCall(d, DataPoints(d), true)
  }

  /** The calls made for the records `vs`, visited in that order. */
  function CallsFor(isNew: WiFiDetail -> bool, vs: seq<WiFiDetail>): seq<Call>
  {
    if vs == [] then []
    else CallsFor(isNew, vs[..|vs| - 1]) + [IsNewSeriesCall(vs[|vs| - 1]), Dispatch(isNew, vs[|vs| - 1])]
  }

  /** `vs` lists the records of `m`, each exactly once. */
  ghost predicate Enumerates(vs: seq<WiFiDetail>, m: DetailSet)
  {
    (forall i :: 0 <= i < |vs| ==> vs[i].Id() in m && m[vs[i].Id()] == vs[i]) &&
    (forall i, j :: 0 <= i < j < |vs| ==> vs[i].Id() != vs[j].Id()) &&
    (forall k :: k in m ==> exists i :: 0 <= i < |vs| && vs[i].Id() == k)
  }

  /**
   * For each record of the set, in some order: ask whether its series is
   * new, then add a series built from its points or update the existing
   * series with its points, highlighted either way.
   */
  method AddSeriesData(wrapper: GraphViewWrapper, details: DetailSet) returns (ghost visited: seq<WiFiDetail>)
    modifies wrapper
    ensures Enumerates(visited, details)
    ensures wrapper.calls == old(wrapper.calls) + CallsFor(wrapper.isNew, visited)
  {
    ghost var initial := wrapper.calls;
    var remaining := details.Keys;
    visited := [];
    while remaining != {}
      invariant Visiting(details, remaining, visited)
      invariant wrapper.calls == initial + CallsFor(wrapper.isNew, visited)
      decreases remaining
    {
      var k :| k in remaining;
      var d := details[k];
      AddRecordSeries(wrapper, d);
      CallsForSnoc(wrapper.isNew, visited, d);
      assert wrapper.calls == initial + (CallsFor(wrapper.isNew, visited) + [IsNewSeriesCall(d), Dispatch(wrapper.isNew, d)]) by {
        AppendAssociates(initial, CallsFor(wrapper.isNew, visited), [IsNewSeriesCall(d), Dispatch(wrapper.isNew, d)]);
      }
      VisitStep(details, remaining, visited, k);
      visited := visited + [d];
      remaining := remaining - {k};
    }
    VisitDone(details, visited);
  }

  /**
   * The body of the loop in `addSeriesData`, for one record: ask whether its
   * series is new, then add a series of its points or update the existing
   * one with them, highlighted.
   */
  method AddRecordSeries(wrapper: GraphViewWrapper, d: WiFiDetail)
    modifies wrapper
    ensures wrapper.calls == old(wrapper.calls) + [IsNewSeriesCall(d), Dispatch(wrapper.isNew, d)]
  {
    var dataPoints := DataPoints(d);
    var isNewSeries := wrapper.IsNewSeries(d);
    if isNewSeries {
      wrapper.AddSeries(d, TitleLineGraphSeries(dataPoints), true);
    } else {
      wrapper.UpdateSeries(d, dataPoints, true);
    }
  }

  /**
   * Midway through `AddSeriesData`: `visited` lists, each once, the records
   * of `details` whose identities are no longer `remaining`.
   */
  ghost predicate Visiting(details: DetailSet, remaining: set<Identity>, visited: seq<WiFiDetail>)
  {
    remaining <= details.Keys &&
    (forall i :: 0 <= i < |visited| ==>
      visited[i].Id() in details && details[visited[i].Id()] == visited[i] && visited[i].Id() !in remaining) &&
    (forall i, j :: 0 <= i < j < |visited| ==> visited[i].Id() != visited[j].Id()) &&
    (forall k :: k in details && k !in remaining ==> exists i :: 0 <= i < |visited| && visited[i].Id() == k)
  }

  /** Once nothing remains, every record has been visited exactly once. */
  lemma VisitDone(details: DetailSet, visited: seq<WiFiDetail>)
    requires Visiting(details, {}, visited)
    ensures Enumerates(visited, details)
  {
  }

  lemma AppendAssociates<T>(a: seq<T>, b: seq<T>, c: seq<T>)
    ensures (a + b) + c == a + (b + c)
  {
  }

  /** Visiting one more record adds its query and the call it leads to. */
  lemma CallsForSnoc(isNew: WiFiDetail -> bool, vs: seq<WiFiDetail>, d: WiFiDetail)
    ensures CallsFor(isNew, vs + [d]) == CallsFor(isNew, vs) + [IsNewSeriesCall(d), Dispatch(isNew, d)]
  {
    assert (vs + [d])[..|vs + [d]| - 1] == vs;
  }

  /** One step of the visit in `AddSeriesData` keeps its bookkeeping. */
  lemma VisitStep(details: DetailSet, remaining: set<Identity>, visited: seq<WiFiDetail>, k: Identity)
    requires Visiting(details, remaining, visited) && k in remaining
    ensures Visiting(details, remaining - {k}, visited + [details[k]])
  {
    var vs, rest := visited + [details[k]], remaining - {k};
    forall k' | k' in details && k' !in rest ensures exists i :: 0 <= i < |vs| && vs[i].Id() == k' {
      if k' == k {
        assert vs[|visited|].Id() == k';
      } else {
        var i :| 0 <= i < |visited| && visited[i].Id() == k';
        assert vs[i].Id() == k';
      }
    }
  }

  /** The calls come in pairs: the query for a record, then the call it leads to. */
  lemma {:induction false} CallsForPairs(isNew: WiFiDetail -> bool, vs: seq<WiFiDetail>)
    ensures |CallsFor(isNew, vs)| == 2 * |vs|
    ensures forall i :: 0 <= i < |vs| ==>
      CallsFor(isNew, vs)[2 * i] == IsNewSeriesCall(vs[i]) && CallsFor(isNew, vs)[2 * i + 1] == Dispatch(isNew, vs[i])
  {
    if vs != [] {
      var init := vs[..|vs| - 1];
      CallsForPairs(isNew, init);
      forall i | 0 <= i < |init| ensures vs[i] == init[i] { }
    }
  }

  /**
   * Every add call follows a new-series answer and carries a series built
   * from its record's points; every update call follows a not-new answer
   * and carries its record's points; both ask for highlighting.
   */
  lemma {:induction false} CallsForArguments(isNew: WiFiDetail -> bool, vs: seq<WiFiDetail>)
    ensures forall c :: c in CallsFor(isNew, vs) && c.AddSeriesCall? ==>
      isNew(c.detail) && c.series == TitleLineGraphSeries(DataPoints(c.detail)) && c.highlight
    ensures forall c :: c in CallsFor(isNew, vs) && c.UpdateSeriesCall? ==>
      !isNew(c.detail) && c.points == DataPoints(c.detail) && c.highlight
  {
    CallsForPairs(isNew, vs);
    var calls := CallsFor(isNew, vs);
    forall n | 0 <= n < |calls|
      ensures calls[n].AddSeriesCall? || calls[n].UpdateSeriesCall? ==> calls[n] == Dispatch(isNew, calls[n].detail)
    {
      var i := n / 2;
      assert i < |vs|;
      if n == 2 * i {
        assert calls[n] == IsNewSeriesCall(vs[i]);
      } else {
        assert n == 2 * i + 1;
        assert calls[n] == Dispatch(isNew, vs[i]);
      }
    }
  }

  /** The three kinds of call on the wrapper. */
  datatype Kind = Query | Add | Update

  /** Whether `c` is a call of kind `kind` about a record of identity `k`. */
  predicate IsCall(c: Call, k: Identity, kind: Kind)
  {
    c.detail.Id() == k &&
    match kind
    case Query => c.IsNewSeriesCall?
    case Add => c.AddSeriesCall?
    case Update => c.UpdateSeriesCall?
  }

  /** The number of calls of kind `kind` about identity `k`. */
  function Count(calls: seq<Call>, k: Identity, kind: Kind): nat
  {
    if calls == [] then 0
    else Count(calls[..|calls| - 1], k, kind) + (if IsCall(calls[|calls| - 1], k, kind) then 1 else 0)
  }

  /** How many calls of kind `kind` the data manager makes for record `d`. */
  function Expected(isNew: WiFiDetail -> bool, d: WiFiDetail, kind: Kind): nat
  {
    match kind
    case Query => 1
    case Add => if isNew(d) then 1 else 0
    case Update => if isNew(d) then 0 else 1
  }

  /** Counting over one more call. */
  lemma CountSnoc(calls: seq<Call>, c: Call, k: Identity, kind: Kind)
    ensures Count(calls + [c], k, kind) == Count(calls, k, kind) + (if IsCall(c, k, kind) then 1 else 0)
  {
    assert (calls + [c])[..|calls + [c]| - 1] == calls;
  }

  /** The query and the call it leads to, counted for one identity and kind. */
  lemma CountRecordCalls(isNew: WiFiDetail -> bool, d: WiFiDetail, k: Identity, kind: Kind)
    ensures (if IsCall(IsNewSeriesCall(d), k, kind) then 1 else 0) + (if IsCall(Dispatch(isNew, d), k, kind) then 1 else 0)
      == if d.Id() == k then Expected(isNew, d, kind) else 0
  {
  }

  /** Counting over the calls for one more record. */
  lemma CountCallsForSnoc(isNew: WiFiDetail -> bool, vs: seq<WiFiDetail>, d: WiFiDetail, k: Identity, kind: Kind)
    ensures Count(CallsFor(isNew, vs + [d]), k, kind)
      == Count(CallsFor(isNew, vs), k, kind) + (if d.Id() == k then Expected(isNew, d, kind) else 0)
  {
    var before, q, c := CallsFor(isNew, vs), IsNewSeriesCall(d), Dispatch(isNew, d);
    CallsForSnoc(isNew, vs, d);
    assert before + [q, c] == (before + [q]) + [c];
    CountSnoc(before, q, k, kind);
    CountSnoc(before + [q], c, k, kind);
    CountRecordCalls(isNew, d, k, kind);
  }

  /** For records of distinct identities, the calls about identity `k` are those for its record, if any. */
  lemma {:induction false} CountCallsFor(isNew: WiFiDetail -> bool, vs: seq<WiFiDetail>, k: Identity, kind: Kind)
    requires forall i, j :: 0 <= i < j < |vs| ==> vs[i].Id() != vs[j].Id()
    ensures (forall i :: 0 <= i < |vs| ==> vs[i].Id() != k) ==> Count(CallsFor(isNew, vs), k, kind) == 0
    ensures forall i :: 0 <= i < |vs| && vs[i].Id() == k ==> Count(CallsFor(isNew, vs), k, kind) == Expected(isNew, vs[i], kind)
  {
    if vs != [] {
      var n := |vs| - 1;
      var init, last := vs[..n], vs[n];
      assert vs == init + [last];
      CountCallsFor(isNew, init, k, kind);
      CountCallsForSnoc(isNew, init, last, k, kind);
      forall i | 0 <= i < |vs| && vs[i].Id() == k
        ensures Count(CallsFor(isNew, vs), k, kind) == Expected(isNew, vs[i], kind)
      {
        if i < n {
          assert init[i] == vs[i];
        } else {
          forall j | 0 <= j < n ensures init[j].Id() != k {
            assert init[j] == vs[j];
          }
        }
      }
      if forall i :: 0 <= i < |vs| ==> vs[i].Id() != k {
        forall j | 0 <= j < n ensures init[j].Id() != k {
          assert init[j] == vs[j];
        }
      }
    }
  }

  /**
   * Over a whole run, each record of the set is queried once and then added
   * once or updated once, as its answer says; no other record is mentioned.
   */
  lemma AddSeriesDataCallsOnce(isNew: WiFiDetail -> bool, details: DetailSet, visited: seq<WiFiDetail>, k: Identity, kind: Kind)
    requires Enumerates(visited, details)
    ensures Count(CallsFor(isNew, visited), k, kind) == if k in details then Expected(isNew, details[k], kind) else 0
  {
    CountCallsFor(isNew, visited, k, kind);
    if k in details {
      var i :| 0 <= i < |visited| && visited[i].Id() == k;
    }
  }
}
