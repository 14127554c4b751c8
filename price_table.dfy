/**
 * The price tables. Every ten seconds (and once on mount) the component
 * fetches the BTC and then the ETH quote; when both arrive it appends one
 * BTC sample and one ETH sample, the latter carrying the ETH price in BTC,
 * to two rolling windows of ten samples. When either fetch fails, the tick
 * changes nothing. Each table shows its samples newest first.
 */
module PriceTable {
  import opened Wrappers
  import opened PriceService
  import opened RollingWindow

  /** How many samples each table keeps. */
  const TableCapacity: nat := 10

  /** One table sample; `btc` is present on ETH samples only. */
  datatype PriceInfo = PriceInfo(time: string, usd: real, eur: real, btc: Option<real>)

  /** The BTC sample of a tick. */
  function BtcSample(q: Quote, time: string): (p: PriceInfo)
    ensures p.btc.None? && p.time == time
    ensures Quote(p.usd, p.eur) == q
  {
    PriceInfo(time, q.usd, q.eur, None)
  }

  /** The ETH sample of a tick, with its price in BTC. */
  function EthSample(q: Quote, btcQuote: Quote, time: string): (p: PriceInfo)
    requires btcQuote.usd > 0.0
    ensures p.time == time && Quote(p.usd, p.eur) == q
    ensures p.btc.Some? && p.btc.value * btcQuote.usd == q.usd
  {
    PriceInfo(time, q.usd, q.eur, Some(q.usd / btcQuote.usd))
  }

  /** The two windows hold as many samples, at most ten, and the samples at
      one index come from one tick: the BTC sample has no BTC price and the
      ETH sample's BTC price is its USD price over the BTC sample's. */
  ghost predicate Paired(btcPrices: seq<PriceInfo>, ethPrices: seq<PriceInfo>) {
    && |btcPrices| == |ethPrices| <= TableCapacity
    && forall i :: 0 <= i < |btcPrices| ==>
         && btcPrices[i].btc.None? && btcPrices[i].usd > 0.0
         && ethPrices[i].btc == Some(ethPrices[i].usd / btcPrices[i].usd)
  }

  /** A tick keeps the two windows paired, and each ends with its new sample. */
  lemma TickKeepsPaired(btcPrices: seq<PriceInfo>, ethPrices: seq<PriceInfo>, btcQuote: Quote, ethQuote: Quote,
                        btcTime: string, ethTime: string)
    requires Paired(btcPrices, ethPrices)
    requires btcQuote.usd > 0.0
    ensures var b := AppendWindow(btcPrices, BtcSample(btcQuote, btcTime), TableCapacity);
      var e := AppendWindow(ethPrices, EthSample(ethQuote, btcQuote, ethTime), TableCapacity);
      && Paired(b, e)
      && b[|b| - 1] == PriceInfo(btcTime, btcQuote.usd, btcQuote.eur, None)
      && e[|e| - 1] == PriceInfo(ethTime, ethQuote.usd, ethQuote.eur, Some(ethQuote.usd / btcQuote.usd))
  {
    var bs, es := BtcSample(btcQuote, btcTime), EthSample(ethQuote, btcQuote, ethTime);
    var b := AppendWindow(btcPrices, bs, TableCapacity);
    var e := AppendWindow(ethPrices, es, TableCapacity);
    var n := |b|;
    assert |e| == n;
    forall i | 0 <= i < n
      ensures b[i].btc.None? && b[i].usd > 0.0 && e[i].btc == Some(e[i].usd / b[i].usd)
    {
      if i < n - 1 {
        var j := |btcPrices| + 1 - n + i;
        assert b[i] == btcPrices[j];
        assert e[i] == ethPrices[j];
      } else {
        assert b[i] == bs && e[i] == es;
      }
    }
  }

  // ---- Rendering (renderTable) ----

  /** `prices.slice().reverse()`: a reversed copy, newest sample first. */
  function NewestFirst<T>(s: seq<T>): (r: seq<T>)
    ensures |r| == |s|
    ensures forall i :: 0 <= i < |s| ==> r[i] == s[|s| - 1 - i]
  {
    if s == [] then [] else [s[|s| - 1]] + NewestFirst(s[..|s| - 1])
  }

  /** Reversing the reversed copy gives the stored order back. */
  lemma NewestFirstInvolutive<T>(s: seq<T>)
    ensures NewestFirst(NewestFirst(s)) == s
  {
    var r := NewestFirst(NewestFirst(s));
    assert forall i :: 0 <= i < |s| ==> r[i] == NewestFirst(s)[|s| - 1 - i];
  }

  /** What the BTC column shows for one row: no column at all in the BTC
      table, an empty cell for a sample without a BTC price, or the price. */
  datatype BtcCell = NoColumn | Blank | Ratio(value: real)

  /** One rendered row, before display rounding. */
  datatype Row = Row(time: string, usd: real, eur: real, btc: BtcCell)

  function RowOf(p: PriceInfo, showBtcColumn: bool): (r: Row)
    ensures r.time == p.time && r.usd == p.usd && r.eur == p.eur
    ensures !showBtcColumn ==> r.btc == NoColumn
    ensures showBtcColumn ==> (r.btc == Blank <==> p.btc.None?)
    ensures showBtcColumn && p.btc.Some? ==> r.btc == Ratio(p.btc.value)
  {
    Row(p.time, p.usd, p.eur,
        if !showBtcColumn then NoColumn
        else match p.btc
          case None => Blank
          case Some(v) => Ratio(v))
  }

  /** The rows of one table: one per stored sample, newest first. */
  function RenderTable(prices: seq<PriceInfo>, showBtcColumn: bool): (rows: seq<Row>)
    ensures |rows| == |prices|
    ensures forall i :: 0 <= i < |rows| ==> rows[i] == RowOf(prices[|prices| - 1 - i], showBtcColumn)
  {
    var newest := NewestFirst(prices);
    seq(|newest|, i requires 0 <= i < |newest| => RowOf(newest[i], showBtcColumn))
  }

  /** After a tick the first row of each table is the sample just taken,
      and the ETH table's first row shows its BTC price. */
  lemma FirstRowIsNewest(prices: seq<PriceInfo>, sample: PriceInfo, showBtcColumn: bool)
    ensures var rows := RenderTable(AppendWindow(prices, sample, TableCapacity), showBtcColumn);
      rows != [] && rows[0] == RowOf(sample, showBtcColumn)
  {
  }

  /** The table component's state. */
  class TableState {
    var btcPrices: seq<PriceInfo>
    var ethPrices: seq<PriceInfo>

    ghost predicate Valid()
      reads this
    {
      Paired(btcPrices, ethPrices)
    }

    /** The tables on mount: both empty. */
    constructor ()
      ensures Valid()
      ensures btcPrices == [] && ethPrices == []
    {
      btcPrices := [];
      ethPrices := [];
    }

    /** One fetch of the latest prices, given the two fetch outcomes and the
        time stamps each sample is taken with. */
    method FetchLatestPrices(btc: FetchResult<Quote>, eth: FetchResult<Quote>, btcTime: string, ethTime: string)
      requires Valid()
      requires btc.Received? ==> btc.value.usd > 0.0
      modifies this
      ensures Valid()
      ensures btc.Failed? || eth.Failed? ==> unchanged(this)
      ensures btc.Received? && eth.Received? ==>
        && btcPrices == AppendWindow(old(btcPrices), BtcSample(btc.value, btcTime), TableCapacity)
        && ethPrices == AppendWindow(old(ethPrices), EthSample(eth.value, btc.value, ethTime), TableCapacity)
    {
      if btc.Received? && eth.Received? {
        TickKeepsPaired(btcPrices, ethPrices, btc.value, eth.value, btcTime, ethTime);
        btcPrices := AppendWindow(btcPrices, BtcSample(btc.value, btcTime), TableCapacity);
        ethPrices := AppendWindow(ethPrices, EthSample(eth.value, btc.value, ethTime), TableCapacity);
      }
    }

    /** The rows of the BTC table; the stored samples are left as they are. */
    function BtcRows(): (rows: seq<Row>)
      reads this
      ensures |rows| == |btcPrices|
      ensures forall i :: 0 <= i < |rows| ==> rows[i].btc == NoColumn
      ensures forall i :: 0 <= i < |rows| ==> rows[i] == RowOf(btcPrices[|btcPrices| - 1 - i], false)
    {
      RenderTable(btcPrices, false)
    }

    /** The rows of the ETH table; the stored samples are left as they are. */
    function EthRows(): (rows: seq<Row>)
      reads this
      requires Valid()
      ensures |rows| == |ethPrices|
      ensures forall i :: 0 <= i < |rows| ==>
        ethPrices[|ethPrices| - 1 - i].btc.Some? && rows[i].btc == Ratio(ethPrices[|ethPrices| - 1 - i].btc.value)
      ensures forall i :: 0 <= i < |rows| ==> rows[i] == RowOf(ethPrices[|ethPrices| - 1 - i], true)
    {
      RenderTable(ethPrices, true)
    }
  }
}
