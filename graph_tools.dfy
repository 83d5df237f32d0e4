/**
 * The plotting surface the channel graph draws on, reduced to what the data
 * manager uses of it: points, a series built from points, and the wrapper's
 * three calls `isNewSeries`, `addSeries` and `updateSeries`.
 *
 * The wrapper here is a recording stand-in: whether a record's series is new
 * is a fixed oracle `isNew`, and every call made on the wrapper is appended to
 * `calls`, with its arguments, in the order it was made.
 */
module GraphTools {
  import opened WiFiModel

  /** One plotted point: a frequency in MHz and a level in dBm. */
  datatype DataPoint = DataPoint(x: int, y: int)

  /** A plotted line series, built from its points. */
  datatype Series = TitleLineGraphSeries(points: seq<DataPoint>)

  /** One call made on the wrapper, with its arguments. */
  datatype Call =
    | IsNewSeriesCall(detail: WiFiDetail)
    | AddSeriesCall(detail: WiFiDetail, series: Series, highlight: bool)
    | UpdateSeriesCall(detail: WiFiDetail, points: seq<DataPoint>, highlight: bool)

  class GraphViewWrapper {
    /** What `isNewSeries` answers for each record. */
    const isNew: WiFiDetail -> bool
    /** Every call made so far, oldest first. */
    var calls: seq<Call>

    constructor (isNew: WiFiDetail -> bool)
      ensures this.isNew == isNew && calls == []
    {
      this.isNew := isNew;
      calls := [];
    }

    method IsNewSeries(d: WiFiDetail) returns (b: bool)
      modifies this
      ensures b == isNew(d)
      ensures calls == old(calls) + [IsNewSeriesCall(d)]
    {
      b := isNew(d);
      calls := calls + [IsNewSeriesCall(d)];
    }

    method AddSeries(d: WiFiDetail, series: Series, highlight: bool)
      modifies this
      ensures calls == old(calls) + [AddSeriesCall(d, series, highlight)]
    {
      calls := calls + [AddSeriesCall(d, series, highlight)];
    }

    method UpdateSeries(d: WiFiDetail, points: seq<DataPoint>, highlight: bool)
      modifies this
      ensures calls == old(calls) + [UpdateSeriesCall(d, points, highlight)]
    {
      calls := calls + [UpdateSeriesCall(d, points, highlight)];
    }
  }
}
