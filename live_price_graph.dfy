/**
 * The live price chart. Every ten seconds it fetches the BTC and then the
 * ETH quote; when both arrive it shows their USD prices as the current
 * prices and pushes a time label and both prices into rolling windows of
 * fifteen points. When either fetch fails, the tick changes nothing.
 */
module LivePriceGraph {
  import opened PriceService
  import opened RollingWindow

  /** How many points the chart keeps. */
  const GraphCapacity: nat := 15

  /** One line of the chart (`name` is its legend label); only `data` ever
      changes. */
  datatype Dataset = Dataset(name: string, data: seq<real>, borderColor: string, backgroundColor: string)

  /** The x-axis labels and the lines drawn against them. */
  datatype GraphData = GraphData(labels: seq<string>, datasets: seq<Dataset>)

  const InitialBtcDataset: Dataset := Dataset("BTC", [], "#FFA500", "rgba(255, 165, 0, 0.5)")
  const InitialEthDataset: Dataset := Dataset("ETH", [], "#778899", "rgba(119, 136, 153, 0.5)")

  /** The chart on mount: no labels, an empty BTC line and an empty ETH line. */
  function InitialGraphData(): (g: GraphData)
    ensures g == ChartOf([])
    ensures g.labels == [] && |g.datasets| == 2
    ensures g.datasets[0].name == "BTC" && g.datasets[0].data == []
    ensures g.datasets[1].name == "ETH" && g.datasets[1].data == []
  {
    GraphData([], [InitialBtcDataset, InitialEthDataset])
  }

  /** The updater's step on one dataset: the BTC line and the ETH line take
      the new price into their window; any other line is returned as it is.
      Only `data` ever changes. */
  function UpdateDataset(d: Dataset, btcUSD: real, ethUSD: real): (d': Dataset)
    ensures d'.name == d.name && d'.borderColor == d.borderColor && d'.backgroundColor == d.backgroundColor
    ensures d.name == "BTC" ==> d'.data == AppendWindow(d.data, btcUSD, GraphCapacity)
    ensures d.name == "ETH" ==> d'.data == AppendWindow(d.data, ethUSD, GraphCapacity)
    ensures d.name != "BTC" && d.name != "ETH" ==> d' == d
  {
    if d.name == "BTC" then d.(data := AppendWindow(d.data, btcUSD, GraphCapacity))
    else if d.name == "ETH" then d.(data := AppendWindow(d.data, ethUSD, GraphCapacity))
    else d
  }

  /** The updater passed to the chart's state: the new label goes into the
      label window and every dataset is updated in place in the list, which
      keeps its order and its length. */
  function UpdateGraph(prev: GraphData, newTime: string, btcUSD: real, ethUSD: real): (next: GraphData)
    ensures next.labels == AppendWindow(prev.labels, newTime, GraphCapacity)
    ensures |next.labels| <= GraphCapacity && next.labels[|next.labels| - 1] == newTime
    ensures |next.datasets| == |prev.datasets|
    ensures forall i :: 0 <= i < |prev.datasets| ==>
      next.datasets[i] == UpdateDataset(prev.datasets[i], btcUSD, ethUSD)
  {
    GraphData(
      AppendWindow(prev.labels, newTime, GraphCapacity),
      seq(|prev.datasets|, i requires 0 <= i < |prev.datasets| => UpdateDataset(prev.datasets[i], btcUSD, ethUSD)))
  }

  /** One successful tick's readings. */
  datatype Sample = Sample(time: string, btcUSD: real, ethUSD: real)

  function Times(samples: seq<Sample>): (r: seq<string>)
    ensures |r| == |samples| && forall i :: 0 <= i < |r| ==> r[i] == samples[i].time
  {
    seq(|samples|, i requires 0 <= i < |samples| => samples[i].time)
  }

  function BtcPrices(samples: seq<Sample>): (r: seq<real>)
    ensures |r| == |samples| && forall i :: 0 <= i < |r| ==> r[i] == samples[i].btcUSD
  {
    seq(|samples|, i requires 0 <= i < |samples| => samples[i].btcUSD)
  }

  function EthPrices(samples: seq<Sample>): (r: seq<real>)
    ensures |r| == |samples| && forall i :: 0 <= i < |r| ==> r[i] == samples[i].ethUSD
  {
    seq(|samples|, i requires 0 <= i < |samples| => samples[i].ethUSD)
  }

  /** The chart after a run of successful ticks from mount. */
  function GraphAfter(samples: seq<Sample>): GraphData {
    if samples == [] then InitialGraphData()
    else
      var s := samples[|samples| - 1];
      UpdateGraph(GraphAfter(samples[..|samples| - 1]), s.time, s.btcUSD, s.ethUSD)
  }

  /** The chart a run of samples leads to, stated directly: the labels, the
      BTC line and the ETH line are the last fifteen times and prices. */
  function ChartOf(samples: seq<Sample>): GraphData {
    GraphData(
      LastN(Times(samples), GraphCapacity),
      [ InitialBtcDataset.(data := LastN(BtcPrices(samples), GraphCapacity)),
        InitialEthDataset.(data := LastN(EthPrices(samples), GraphCapacity)) ])
  }

  lemma ProjectionsSnoc(init: seq<Sample>, s: Sample)
    ensures Times(init + [s]) == Times(init) + [s.time]
    ensures BtcPrices(init + [s]) == BtcPrices(init) + [s.btcUSD]
    ensures EthPrices(init + [s]) == EthPrices(init) + [s.ethUSD]
  {
  }

  /** One tick on the BTC line of a run's chart gives the BTC line of the
      longer run. */
  lemma UpdateBtcLine(init: seq<Sample>, s: Sample)
    ensures UpdateDataset(ChartOf(init).datasets[0], s.btcUSD, s.ethUSD) == ChartOf(init + [s]).datasets[0]
  {
    ProjectionsSnoc(init, s);
    AppendToLastN(BtcPrices(init), s.btcUSD, GraphCapacity);
  }

  /** One tick on the ETH line of a run's chart gives the ETH line of the
      longer run. */
  lemma UpdateEthLine(init: seq<Sample>, s: Sample)
    ensures UpdateDataset(ChartOf(init).datasets[1], s.btcUSD, s.ethUSD) == ChartOf(init + [s]).datasets[1]
  {
    ProjectionsSnoc(init, s);
    AppendToLastN(EthPrices(init), s.ethUSD, GraphCapacity);
  }

  lemma PairOfDatasets(a: seq<Dataset>, b: seq<Dataset>)
    requires |a| == 2 == |b| && a[0] == b[0] && a[1] == b[1]
    ensures a == b
  {
  }

  /** One tick turns the chart of a run into the chart of the longer run. */
  lemma UpdateChartOf(init: seq<Sample>, s: Sample)
    ensures UpdateGraph(ChartOf(init), s.time, s.btcUSD, s.ethUSD) == ChartOf(init + [s])
  {
    var next := UpdateGraph(ChartOf(init), s.time, s.btcUSD, s.ethUSD);
    var want := ChartOf(init + [s]);
    ProjectionsSnoc(init, s);
    AppendToLastN(Times(init), s.time, GraphCapacity);
    assert next.labels == want.labels;
    UpdateBtcLine(init, s);
    UpdateEthLine(init, s);
    PairOfDatasets(next.datasets, want.datasets);
  }

  /** Whatever the successful ticks since mount, the chart shows the last
      fifteen of them, in order, with the BTC line first and the ETH line
      second and their colours as on mount. */
  lemma {:induction false} GraphAfterShowsLastSamples(samples: seq<Sample>)
    ensures GraphAfter(samples) == ChartOf(samples)
  {
    if samples != [] {
      var init, s := samples[..|samples| - 1], samples[|samples| - 1];
      assert init + [s] == samples;
      calc {
        GraphAfter(samples);
        UpdateGraph(GraphAfter(init), s.time, s.btcUSD, s.ethUSD);
        { GraphAfterShowsLastSamples(init); }
        UpdateGraph(ChartOf(init), s.time, s.btcUSD, s.ethUSD);
        { UpdateChartOf(init, s); }
        ChartOf(samples);
      }
    }
  }

  /** The chart from mount keeps its labels and both lines the same length,
      at most fifteen, ending with the last tick's time and prices. */
  lemma ChartAligned(samples: seq<Sample>)
    ensures var g := GraphAfter(samples);
      && |g.datasets| == 2
      && |g.labels| == Min(GraphCapacity, |samples|)
      && |g.datasets[0].data| == |g.labels| && |g.datasets[1].data| == |g.labels|
      && (samples != [] ==>
            var s := samples[|samples| - 1];
            && g.labels[|g.labels| - 1] == s.time
            && g.datasets[0].data[|g.labels| - 1] == s.btcUSD
            && g.datasets[1].data[|g.labels| - 1] == s.ethUSD)
  {
    GraphAfterShowsLastSamples(samples);
  }

  /** The chart component's state. */
  class GraphState {
    var graphData: GraphData
    var currentBTCPrice: real
    var currentETHPrice: real
    /** The successful ticks since mount. */
    ghost var history: seq<Sample>

    /** The chart is the one the successful ticks lead to, and the current
        prices are the last points of the two lines (0 before any tick). */
    ghost predicate Valid()
      reads this
    {
      && graphData == ChartOf(history)
      && (history == [] ==> currentBTCPrice == 0.0 && currentETHPrice == 0.0)
      && (history != [] ==>
            && currentBTCPrice == history[|history| - 1].btcUSD
            && currentETHPrice == history[|history| - 1].ethUSD)
    }

    constructor ()
      ensures Valid()
      ensures graphData == InitialGraphData() && history == []
      ensures currentBTCPrice == 0.0 && currentETHPrice == 0.0
    {
      graphData := InitialGraphData();
      currentBTCPrice := 0.0;
      currentETHPrice := 0.0;
      history := [];
    }

    /** One tick of the interval, given the two fetch outcomes and the time
        label of the moment the second one arrived. */
    method Tick(btc: FetchResult<Quote>, eth: FetchResult<Quote>, newTime: string)
      requires Valid()
      modifies this
      ensures Valid()
      ensures btc.Failed? || eth.Failed? ==> unchanged(this)
      ensures btc.Received? && eth.Received? ==>
        && history == old(history) + [Sample(newTime, btc.value.usd, eth.value.usd)]
        && graphData == UpdateGraph(old(graphData), newTime, btc.value.usd, eth.value.usd)
        && currentBTCPrice == btc.value.usd && currentETHPrice == eth.value.usd
    {
      if btc.Received? && eth.Received? {
        var b, e := btc.value.usd, eth.value.usd;
        currentBTCPrice := b;
        currentETHPrice := e;
        graphData := UpdateGraph(graphData, newTime, b, e);
        history := history + [Sample(newTime, b, e)];
        assert history[..|history| - 1] == old(history);
        GraphAfterShowsLastSamples(old(history));
        GraphAfterShowsLastSamples(history);
      }
    }
  }
}
