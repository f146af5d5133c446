/** The network collector: bytes received and sent per second over the
    allowed interfaces. Each sample is the list of `networks()` (in the
    map's key order) together with what `network_stats` returned for each
    of them; the one-second sleep between the samples is not modelled. */
module Network {
  import opened Wrappers
  import opened Bytes
  import opened Counters

  datatype NetStats = NetStats(rxBytes: u64, txBytes: u64)

  /** An interface and the result of `network_stats` for it (`None` on error). */
  datatype NetworkEntry = NetworkEntry(name: string, stats: Option<NetStats>)

  /** An interface counts when it is allowed and its statistics could be read. */
  predicate Contributes(n: NetworkEntry, allowed: seq<string>)
  {
    n.name in allowed && n.stats.Some?
  }

  function Contributing(networks: seq<NetworkEntry>, allowed: seq<string>): (r: seq<NetworkEntry>)
    ensures |r| <= |networks|
    ensures forall i :: 0 <= i < |r| ==> r[i].stats.Some?
  {
    if networks == [] then []
    else
      var init, last := networks[..|networks| - 1], networks[|networks| - 1];
      Contributing(init, allowed) + (if Contributes(last, allowed) then [last] else [])
  }

  function RxOf(networks: seq<NetworkEntry>): (r: seq<u64>)
    requires forall i :: 0 <= i < |networks| ==> networks[i].stats.Some?
    ensures |r| == |networks|
  {
    seq(|networks|, i requires 0 <= i < |networks| => networks[i].stats.value.rxBytes)
  }

  function TxOf(networks: seq<NetworkEntry>): (r: seq<u64>)
    requires forall i :: 0 <= i < |networks| ==> networks[i].stats.Some?
    ensures |r| == |networks|
  {
    seq(|networks|, i requires 0 <= i < |networks| => networks[i].stats.value.txBytes)
  }

  /** Bytes received over the contributing interfaces, added with
      `saturating_add`: the exact count, capped at 2^64 - 1. */
  function RxTotal(networks: seq<NetworkEntry>, allowed: seq<string>): (r: u64)
    ensures r == Min(Sum(RxOf(Contributing(networks, allowed))), U64_MAX)
  {
    SaturatingSumIsCappedSum(RxOf(Contributing(networks, allowed)));
    SaturatingSum(RxOf(Contributing(networks, allowed)))
  }

  /** Bytes sent, the same way. */
  function TxTotal(networks: seq<NetworkEntry>, allowed: seq<string>): (r: u64)
    ensures r == Min(Sum(TxOf(Contributing(networks, allowed))), U64_MAX)
  {
    SaturatingSumIsCappedSum(TxOf(Contributing(networks, allowed)));
    SaturatingSum(TxOf(Contributing(networks, allowed)))
  }

  /** An interface that is not allowed, or whose statistics fail, adds
      nothing; any other adds its counters with saturation. */
  lemma TotalsStep(networks: seq<NetworkEntry>, allowed: seq<string>, n: NetworkEntry)
    ensures !Contributes(n, allowed) ==>
      RxTotal(networks + [n], allowed) == RxTotal(networks, allowed) && TxTotal(networks + [n], allowed) == TxTotal(networks, allowed)
    ensures Contributes(n, allowed) ==>
      && RxTotal(networks + [n], allowed) == SatAdd(RxTotal(networks, allowed), n.stats.value.rxBytes)
      && TxTotal(networks + [n], allowed) == SatAdd(TxTotal(networks, allowed), n.stats.value.txBytes)
  {
    assert (networks + [n])[..|networks|] == networks;
    var here := Contributing(networks, allowed);
    if Contributes(n, allowed) {
      assert Contributing(networks + [n], allowed) == here + [n];
      var rx, tx := RxOf(here + [n]), TxOf(here + [n]);
      assert rx[..|rx| - 1] == RxOf(here);
      assert tx[..|tx| - 1] == TxOf(here);
    } else {
      assert Contributing(networks + [n], allowed) == here + [] == here;
    }
  }

  /** `get_aggregated_stats`: `[rx, tx]` summed over the contributing interfaces. */
  method AggregatedStats(networks: seq<NetworkEntry>, allowed: seq<string>) returns (r: seq<u64>)
    ensures r == [RxTotal(networks, allowed), TxTotal(networks, allowed)]
  {
    var rxBytes: u64, txBytes: u64 := 0, 0;
    var i := 0;
    while i < |networks|
      invariant 0 <= i <= |networks|
      invariant rxBytes == RxTotal(networks[..i], allowed) && txBytes == TxTotal(networks[..i], allowed)
    {
      var net := networks[i];
      TotalsStep(networks[..i], allowed, net);
      assert networks[..i + 1] == networks[..i] + [net];
      if net.name in allowed {
        match net.stats {
          case Some(stats) =>
            rxBytes := SatAdd(rxBytes, stats.rxBytes);
            txBytes := SatAdd(txBytes, stats.txBytes);
          case None =>
        }
      }
      i := i + 1;
    }
    assert networks[..i] == networks;
    r := [rxBytes, txBytes];
  }

  /** `collect_io`: `[received, sent]` between the two samples with
      `saturating_sub`, so a counter that went backwards gives 0; `[0, 0]`
      when either `networks()` call fails (`None`). */
  method CollectIo(initial: Option<seq<NetworkEntry>>, final: Option<seq<NetworkEntry>>, allowed: seq<string>)
    returns (r: seq<u64>)
    ensures |r| == 2
    ensures initial.None? || final.None? ==> r == [0, 0]
    ensures initial.Some? && final.Some? ==>
      && r[0] == SatSub(RxTotal(final.value, allowed), RxTotal(initial.value, allowed))
      && r[1] == SatSub(TxTotal(final.value, allowed), TxTotal(initial.value, allowed))
      && r[0] <= RxTotal(final.value, allowed) && r[1] <= TxTotal(final.value, allowed)
  {
    match initial {
      case None =>
        r := [0, 0];
      case Some(initialNetworks) =>
        var initialResults := AggregatedStats(initialNetworks, allowed);
        match final {
          case None =>
            r := [0, 0];
          case Some(finalNetworks) =>
            var finalResults := AggregatedStats(finalNetworks, allowed);
            var rxBytes := SatSub(finalResults[0], initialResults[0]);
            var txBytes := SatSub(finalResults[1], initialResults[1]);
            r := [rxBytes, txBytes];
        }
    }
  }
}
