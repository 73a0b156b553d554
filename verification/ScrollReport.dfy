/** `reduce_trace`: from the events of one trace to its four metrics. */
module ScrollReport {
  import opened ScrollEpisodes
  import opened ScrollMetrics
  import opened ScrollRuns

  const PHASES: seq<string> := ["gesture", "momentum", "idle"]

  /**
    What the report says is about the trace alone: the path metrics are those of its scrolls, which the
    splitting by direction does not touch, and the counting metrics those of the stretches between
    changes of scroll or direction.
   */
  method ReduceTrace(events: seq<Event>, threshold: real)
    returns (tallies: seq<Tally>, counts: seq<nat>, worst: nat, maxEntries: nat, repeated: nat,
             perScroll: seq<Scroll>, total: Scroll,
             inSpan: seq<Bucket>, inSpanTeleports: nat, realized: seq<Bucket>, realizedTeleports: nat)
    ensures PHASES == ["gesture", "momentum", "idle"] && |tallies| == 3
    ensures forall p | 0 <= p < 3 :: tallies[p] == TallyRuns(TraceRuns(events), PHASES[p], threshold)
    ensures Table(TraceRuns(events), counts, worst, repeated) && maxEntries == worst
    ensures |perScroll| == |Measured(Scrolls(events))|
    ensures forall i | 0 <= i < |perScroll| :: Reports(perScroll[i], Measured(Scrolls(events))[i])
    ensures total.path == TotalPath(Scrolls(events)) && total.net == TotalNet(Scrolls(events))
    ensures Tallied(Pairs(Scrolls(events), InSpan), 2000.0, inSpan, inSpanTeleports)
    ensures Tallied(Pairs(Scrolls(events), Realized), 2000.0, realized, realizedTeleports)
  {
    var runs := ReadRuns(events);
    SplitterMeansTraceRuns(events);
    tallies := [];
    for p := 0 to |PHASES|
      invariant |tallies| == p && forall q | 0 <= q < p :: tallies[q] == TallyRuns(runs, PHASES[q], threshold)
    {
      var t := MeasureM1(runs, PHASES[p], threshold);
      tallies := tallies + [t];
    }
    counts, worst, maxEntries, repeated := MeasureM2(runs);
    var scrolls := ReadScrolls(events, runs);
    perScroll, total := MeasureM3(scrolls);
    inSpan, inSpanTeleports := MeasureReverseDrift(scrolls, InSpan, TELEPORT_PX);
    realized, realizedTeleports := MeasureReverseDrift(scrolls, Realized, TELEPORT_PX);
  }
}
