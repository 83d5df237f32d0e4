/**
 * The unit tests of the data manager, each stated for the model: the
 * expected values the tests assert, and the two runs of `AddSeriesData`
 * against a wrapper whose `isNewSeries` answer is stubbed.
 */
module DataManagerTest {
  import opened WiFiModel
  import opened GraphTools
  import opened DataManager

  /** Frequencies 10 to 14 fall in the bucket starting at 10; 15 starts its own. */
  lemma TestFrequencyAdjustment()
    ensures FrequencyAdjustment(10) == 10 && FrequencyAdjustment(11) == 10 && FrequencyAdjustment(12) == 10
    ensures FrequencyAdjustment(13) == 10 && FrequencyAdjustment(14) == 10 && FrequencyAdjustment(15) == 15
  {
  }

  /**
   * Of the three records at f, -f and f, where f is the pair's first channel
   * frequency, the set keeps the two at f and drops the one at -f.
   */
  lemma TestGetNewSeries(pair: ChannelPair)
    requires 0 < pair.first <= pair.second
    ensures var expected := MakeWiFiDetails(pair.first);
      var actual := GetNewSeries(expected, pair);
      |actual| == |expected| - 1 &&
      Contains(actual, expected[0]) && !Contains(actual, expected[1]) && Contains(actual, expected[2])
  {
    var e := MakeWiFiDetails(pair.first);
    assert e[1..][1..] == [e[2]] && [e[2]][1..] == [];
    assert GetNewSeries([e[2]], pair) == map[e[2].Id() := e[2]];
    assert GetNewSeries(e[1..], pair) == map[e[2].Id() := e[2]];
    assert GetNewSeries(e, pair) == map[e[2].Id() := e[2], e[0].Id() := e[0]];
  }

  /** A 20 MHz record at 2455 MHz and -40 dBm is drawn as this trapezoid. */
  lemma TestGetDataPoints()
    ensures DataPoints(MakeWiFiDetail("SSID", 2455)) ==
      [DataPoint(2445, -100), DataPoint(2450, Level), DataPoint(2455, Level), DataPoint(2460, Level), DataPoint(2465, -100)]
  {
  }

  /** A set holding one record is visited as that record alone. */
  lemma {:induction false} SingletonEnumeration(d: WiFiDetail, visited: seq<WiFiDetail>)
    requires Enumerates(visited, map[d.Id() := d])
    ensures visited == [d]
  {
    assert d.Id() in map[d.Id() := d];
    var i :| 0 <= i < |visited| && visited[i].Id() == d.Id();
    assert visited[0].Id() == visited[|visited| - 1].Id() == d.Id();
    assert |visited| == 1;
  }

  /** A record whose series exists already: one query, then one highlighted update with its points. */
  method TestAddSeriesDataWithExistingWiFiDetails() returns (calls: seq<Call>)
    ensures var wiFiDetail := MakeWiFiDetail("SSID", 2455);
      calls == [IsNewSeriesCall(wiFiDetail), UpdateSeriesCall(wiFiDetail, DataPoints(wiFiDetail), true)]
  {
    var wiFiDetail := MakeWiFiDetail("SSID", 2455);
    var graphViewWrapper := new GraphViewWrapper(d => false);
    ghost var visited := AddSeriesData(graphViewWrapper, map[wiFiDetail.Id() := wiFiDetail]);
    SingletonEnumeration(wiFiDetail, visited);
    calls := graphViewWrapper.calls;
  }

  /** A record whose series is new: one query, then one highlighted add of a series from its points. */
  method TestAddSeriesDataNewWiFiDetails() returns (calls: seq<Call>)
    ensures var wiFiDetail := MakeWiFiDetail("SSID", 2455);
      calls == [IsNewSeriesCall(wiFiDetail), AddSeriesCall(wiFiDetail, TitleLineGraphSeries(DataPoints(wiFiDetail)), true)]
  {
    var wiFiDetail := MakeWiFiDetail("SSID", 2455);
    var graphViewWrapper := new GraphViewWrapper((d: WiFiDetail) => d.Id() == wiFiDetail.Id());
    ghost var visited := AddSeriesData(graphViewWrapper, map[wiFiDetail.Id() := wiFiDetail]);
    SingletonEnumeration(wiFiDetail, visited);
    calls := graphViewWrapper.calls;
  }
}
