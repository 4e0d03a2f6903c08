/** The data series of the XP bar chart (renderXPBarChart, script.js:175). */
module BarChart {
  import opened Records

  /** One bar: when the transaction happened and how much it was worth.
      The date stays the timestamp text; parsing it is not modelled. */
  datatype Point = Point(date: string, amount: int)

  /** The `transactions.map` of renderXPBarChart: one point per transaction,
      in the same order, with its date and amount. The source wraps the date
      in `new Date(...)`; that parsing is not modelled. */
  function ChartSeries(txs: seq<Transaction>): (points: seq<Point>)
    ensures |points| == |txs|
    ensures forall i :: 0 <= i < |txs| ==>
      points[i].date == txs[i].createdAt && points[i].amount == txs[i].amount
  {
    if txs == [] then [] else [Point(txs[0].createdAt, txs[0].amount)] + ChartSeries(txs[1..])
  }

  /** The series of two runs of transactions is the two series one after the other. */
  lemma ChartSeriesAppend(a: seq<Transaction>, b: seq<Transaction>)
    ensures ChartSeries(a + b) == ChartSeries(a) + ChartSeries(b)
  {
    var whole, parts := ChartSeries(a + b), ChartSeries(a) + ChartSeries(b);
    forall i | 0 <= i < |a + b| ensures whole[i] == parts[i] {
      if i < |a| {
        assert (a + b)[i] == a[i];
      } else {
        assert (a + b)[i] == b[i - |a|];
      }
    }
  }
}
