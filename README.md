# WiFi Analyzer channel-graph data manager, in Dafny

WiFi Analyzer draws a channel graph: each scanned access point is a curve over
the frequencies its channel occupies. The `DataManager` of the channel graph
prepares that graph's data:

- `frequencyAdjustment` rounds a frequency down to its 5 MHz bucket;
- `getNewSeries` picks, from the scanned records, the set of records whose
  frequency falls in one channel pair's span;
- `getDataPoints` turns one record into the five points of its curve: a
  trapezoid whose two ends sit at the -100 dBm floor, 10 MHz either side of the
  centre, and whose two shoulders and centre sit at the measured level;
- `addSeriesData` goes through a set of records, asks the graph wrapper whether
  each record's series is new, and then either adds a series built from the
  record's points or updates the existing series with them, highlighted.

The behaviour modelled is the behaviour the unit test
`app/src/test/java/com/vrem/wifianalyzer/wifi/graph/channel/DataManagerTest.java`
asserts of `DataManager`. The class `DataManager` is not part of this model's
sources, so each contract is what the test pins down, generalised from its
concrete inputs.

Files:

- `wifi_model.dfy` (module `WiFiModel`): the record `WiFiDetail`
  (network name, hardware address, centre frequency, level), its `Identity`
  (name and address: the only fields Java's `equals` compares), the set of
  records under identity equality (`DetailSet`, a map from identity to the
  record held for it), the channel pair, and the test's record builders.
- `graph_tools.dfy` (module `GraphTools`): points, series, and the graph
  wrapper as a class whose `isNewSeries` answer is a fixed oracle `isNew` and
  which records every call made on it, with its arguments, in `calls`.
- `data_manager.dfy` (module `DataManager`): the four operations and the
  lemmas about them.
- `data_manager_test.dfy` (module `DataManagerTest`): the five unit tests,
  as lemmas and as client methods of `AddSeriesData`.

The lower boundary of a channel pair's span is inclusive: the test keeps the
records whose frequency equals the pair's first channel frequency
(`DataManagerTest.java`, lines 86-93).

## Model

| member | source | states |
|---|---|---|
| `WiFiModel.MakeWiFiDetail` | app/src/test/java/com/vrem/wifianalyzer/wifi/graph/channel/DataManagerTest.java:145-148 | the record has identity (name, "BSSID"), the given frequency and level -40 |
| `WiFiModel.MakeWiFiDetails` | app/src/test/java/com/vrem/wifianalyzer/wifi/graph/channel/DataManagerTest.java:150-152 | three records at f, -f, f with pairwise distinct identities |
| `DataManager.FrequencyAdjustment` | app/src/test/java/com/vrem/wifianalyzer/wifi/graph/channel/DataManagerTest.java:73-80 | the result is a multiple of 5 with result <= frequency < result + 5 |
| `DataManager.FrequencyAdjustmentIsGreatest` | app/src/test/java/com/vrem/wifianalyzer/wifi/graph/channel/DataManagerTest.java:74-79 | no multiple of 5 at or below the frequency exceeds the result |
| `DataManager.FrequencyAdjustmentFixedPoints` | app/src/test/java/com/vrem/wifianalyzer/wifi/graph/channel/DataManagerTest.java:74-79 | a frequency is unchanged if and only if it is a multiple of 5 |
| `DataManager.FrequencyAdjustmentIdempotent` | app/src/test/java/com/vrem/wifianalyzer/wifi/graph/channel/DataManagerTest.java:74-79 | adjusting an adjusted frequency changes nothing |
| `DataManager.DataPoints` | app/src/test/java/com/vrem/wifianalyzer/wifi/graph/channel/DataManagerTest.java:97-109 | exactly 5 points at c-10, c-5, c, c+5, c+10 for centre c, frequencies strictly ascending, ends at -100, interior at the record's level, 20 MHz span, symmetric about the centre |
| `DataManager.DataPointsRiseThenFall` | app/src/test/java/com/vrem/wifianalyzer/wifi/graph/channel/DataManagerTest.java:104-108 | the curve has a single peak (levels rise, then fall) if and only if the level is at least -100, and that peak is at the centre point |
| `DataManager.DataPointsDetermineSignal` | app/src/test/java/com/vrem/wifianalyzer/wifi/graph/channel/DataManagerTest.java:101-108 | two records get the same points if and only if they have the same frequency and level |
| `DataManager.GetNewSeries` | app/src/test/java/com/vrem/wifianalyzer/wifi/graph/channel/DataManagerTest.java:83-94 | every record in the result is an input record in the pair's span, stored under its identity |
| `DataManager.GetNewSeriesKeys` | app/src/test/java/com/vrem/wifianalyzer/wifi/graph/channel/DataManagerTest.java:88-93 | an identity is in the result if and only if some input record in the span has it |
| `DataManager.GetNewSeriesContains` | app/src/test/java/com/vrem/wifianalyzer/wifi/graph/channel/DataManagerTest.java:91-93 | `contains(d)` on the result holds if and only if some input record in the span has d's identity |
| `DataManager.GetNewSeriesKeepsFirst` | app/src/test/java/com/vrem/wifianalyzer/wifi/graph/channel/DataManagerTest.java:88 | among records in the span sharing an identity, the set holds the first |
| `DataManager.GetNewSeriesSize` | app/src/test/java/com/vrem/wifianalyzer/wifi/graph/channel/DataManagerTest.java:90 | the result has one entry per distinct identity in the span |
| `DataManager.GetNewSeriesIdempotent` | app/src/test/java/com/vrem/wifianalyzer/wifi/graph/channel/DataManagerTest.java:88 | selecting again from the selected records gives the same set |
| `DataManager.AddSeriesData` | app/src/test/java/com/vrem/wifianalyzer/wifi/graph/channel/DataManagerTest.java:111-143 | the records of the set are visited each exactly once, and the wrapper's log grows by, per record, its query and then the add or update its answer leads to |
| `DataManager.AddRecordSeries` | app/src/test/java/com/vrem/wifianalyzer/wifi/graph/channel/DataManagerTest.java:119-142 | one record's step: the log grows by its query and then a highlighted add of a series of its points if the answer is "new", else a highlighted update with its points |
| `DataManager.CallsForPairs` | app/src/test/java/com/vrem/wifianalyzer/wifi/graph/channel/DataManagerTest.java:119-125 | the calls alternate: the query for a record, then the call for that same record |
| `DataManager.CallsForArguments` | app/src/test/java/com/vrem/wifianalyzer/wifi/graph/channel/DataManagerTest.java:119-142 | adds only follow a "new" answer and carry a series of the record's points; updates only follow a "not new" answer and carry the record's points; both are highlighted |
| `DataManager.AddSeriesDataCallsOnce` | app/src/test/java/com/vrem/wifianalyzer/wifi/graph/channel/DataManagerTest.java:123-142 | each record of the set is queried once and then added once or updated once, as its answer says; records outside the set get no call |
| `GraphTools.GraphViewWrapper.constructor` | app/src/test/java/com/vrem/wifianalyzer/wifi/graph/channel/DataManagerTest.java:114 | a wrapper with the given answers and no calls yet |
| `GraphTools.GraphViewWrapper.IsNewSeries` | app/src/test/java/com/vrem/wifianalyzer/wifi/graph/channel/DataManagerTest.java:119 | returns the stubbed answer and records the query |
| `GraphTools.GraphViewWrapper.AddSeries` | app/src/test/java/com/vrem/wifianalyzer/wifi/graph/channel/DataManagerTest.java:141-142 | records the add with its arguments |
| `GraphTools.GraphViewWrapper.UpdateSeries` | app/src/test/java/com/vrem/wifianalyzer/wifi/graph/channel/DataManagerTest.java:124-125 | records the update with its arguments |
| `DataManagerTest.TestFrequencyAdjustment` | app/src/test/java/com/vrem/wifianalyzer/wifi/graph/channel/DataManagerTest.java:73-80 | 10, 11, 12, 13, 14 map to 10 and 15 maps to 15 |
| `DataManagerTest.TestGetNewSeries` | app/src/test/java/com/vrem/wifianalyzer/wifi/graph/channel/DataManagerTest.java:83-94 | for any pair with 0 < first <= second, records at first, -first, first give a set of size 2 holding the first and third record and not the second |
| `DataManagerTest.TestGetDataPoints` | app/src/test/java/com/vrem/wifianalyzer/wifi/graph/channel/DataManagerTest.java:97-109 | 2455 MHz at -40 dBm gives (2445,-100), (2450,-40), (2455,-40), (2460,-40), (2465,-100) |
| `DataManagerTest.SingletonEnumeration` | app/src/test/java/com/vrem/wifianalyzer/wifi/graph/channel/DataManagerTest.java:117 | a set of one record is visited as that record alone |
| `DataManagerTest.TestAddSeriesDataWithExistingWiFiDetails` | app/src/test/java/com/vrem/wifianalyzer/wifi/graph/channel/DataManagerTest.java:112-126 | with the answer "not new", the calls are exactly one query and one highlighted update with the record's points |
| `DataManagerTest.TestAddSeriesDataNewWiFiDetails` | app/src/test/java/com/vrem/wifianalyzer/wifi/graph/channel/DataManagerTest.java:129-143 | with the answer "new", the calls are exactly one query and one highlighted add of a series built from the record's points |

## Left out

- `DataManager` itself is not part of this model; every operation is modelled from what its unit test asserts.
- `DataManager.FrequencyAdjustment`: defined for non-negative frequencies only. Java's `%` truncates toward zero where Dafny's is Euclidean, and the test never passes a negative frequency.
- `DataManager.InRange`: the upper boundary is taken as inclusive. The test pins only that the lower boundary is inclusive and that a negative frequency is out of range.
- The channel-pair table of the 2.4 GHz band is not part of this model; `TestGetNewSeries` holds for every pair with a positive first frequency not above its second.
- `DataManager.DataPoints`: only 20 MHz wide records, the width every test record has. Other channel widths are not modelled.
- A record's primary and centre frequency are one field, as in every record the test builds. Capabilities and additional metadata are not modelled.
- Frequencies and levels are unbounded integers; Java's 32-bit `int` never overflows at the values involved.
- The graph wrapper is a recording stand-in for the mocked `GraphViewWrapper`. Real series storage and drawing are not modelled, and a series is only the points it was built from.
- `DataManager.AddSeriesData` visits the set in an order it does not fix, like iteration over a Java set.
- Robolectric activity setup and the mocking library are not modelled.
