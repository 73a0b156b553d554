/** The two path metrics, before rounding: path-to-net ratio per scroll, and reverse drift by row density. */
module ScrollMetrics {
  import opened Options
  import opened ScrollRuns

  function Abs(x: real): (a: real)
    ensures a >= 0.0
  {
    if x < 0.0 then -x else x
  }

  /** `delta` measured along the heading of its scroll. */
  function Along(delta: real, rising: bool): real {
    if rising then delta else -delta
  }

  // ---------- sessions ----------

  function SessionSet(runs: seq<Run>): set<nat> {
    if runs == [] then {} else SessionSet(runs[..|runs| - 1]) + {runs[|runs| - 1].session}
  }

  lemma {:induction false} NoFramesOutside(runs: seq<Run>, s: nat)
    requires s !in SessionSet(runs)
    ensures FramesOfSession(runs, s) == []
  {
    if runs != [] {
      NoFramesOutside(runs[..|runs| - 1], s);
    }
  }

  /** The sessions in the order in which they first appear, which is the order a dictionary keeps. */
  function FirstSeen(runs: seq<Run>): seq<nat> {
    if runs == [] then []
    else
      var s := runs[|runs| - 1].session;
      FirstSeen(runs[..|runs| - 1]) + if s in SessionSet(runs[..|runs| - 1]) then [] else [s]
  }

  /** The dictionary both path metrics build first, with its keys in insertion order. */
  method GroupBySession(runs: seq<Run>) returns (sessions: map<nat, seq<Frame>>, order: seq<nat>)
    ensures sessions.Keys == SessionSet(runs) && order == FirstSeen(runs)
    ensures forall s | s in sessions :: sessions[s] == FramesOfSession(runs, s)
  {
    sessions, order := map[], [];
    for i := 0 to |runs|
      invariant sessions.Keys == SessionSet(runs[..i]) && order == FirstSeen(runs[..i])
      invariant forall s | s in sessions :: sessions[s] == FramesOfSession(runs[..i], s)
    {
      assert runs[..i + 1][..i] == runs[..i];
      var s := runs[i].session;
      var frames := [];
      if s in sessions {
        frames := sessions[s];
      } else {
        NoFramesOutside(runs[..i], s);
        order := order + [s];
      }
      sessions := sessions[s := frames + runs[i].frames];
    }
    assert runs[..|runs|] == runs;
  }

  /** The numbers from 1 to `n`. */
  function Numbers(n: nat): (ns: seq<nat>)
    ensures |ns| == n
  {
    seq(n, i requires 0 <= i < n => i + 1)
  }

  /** The runs `from` and `to` have the same sessions in the same order. */
  lemma {:induction false} SameSessions(from: seq<Run>, to: seq<Run>)
    requires |from| == |to| && forall i | 0 <= i < |from| :: from[i].session == to[i].session
    ensures SessionSet(from) == SessionSet(to) && FirstSeen(from) == FirstSeen(to)
  {
    if from != [] {
      SameSessions(from[..|from| - 1], to[..|to| - 1]);
    }
  }

  ghost predicate SessionsCountUp(st: Splitter) {
    && FirstSeen(st.runs) == Numbers(st.session)
    && (forall s :: s in SessionSet(st.runs) <==> 1 <= s <= st.session)
  }

  lemma AdvanceCountsUp(events: seq<Event>, st: Splitter, e: Event)
    requires Agrees(events, st) && SessionsCountUp(st)
    ensures SessionsCountUp(Advance(st, e))
  {
    if e.GestureFrame? && !Continues(st, e.direction) {
      NewRunCountsUp(st, e);
    } else {
      KeptRunsCountUp(st, e);
    }
  }

  lemma KeptRunsCountUp(st: Splitter, e: Event)
    requires SessionsCountUp(st) && (e.GestureFrame? ==> Continues(st, e.direction) && !st.idle)
    ensures SessionsCountUp(Advance(st, e))
  {
    KeptSessions(st, e);
    SameSessions(st.runs, Advance(st, e).runs);
  }

  lemma NewRunCountsUp(st: Splitter, e: Event)
    requires e.GestureFrame? && !Continues(st, e.direction) && SessionsCountUp(st)
    requires !st.idle ==> st.runs != [] && Last(st.runs).session == st.session
    ensures SessionsCountUp(Advance(st, e))
  {
    var after := Advance(st, e);
    var r := Run(e.direction, after.session, [FrameOf(e)], []);
    assert after.runs == st.runs + [r];
    SessionsOfOneMore(st.runs, r);
    if !st.idle {
      LastIsSession(st.runs);
    } else {
      NumbersGrow(st.session);
    }
  }

  lemma KeptSessions(st: Splitter, e: Event)
    requires e.GestureFrame? ==> Continues(st, e.direction)
    ensures |Advance(st, e).runs| == |st.runs|
    ensures forall i | 0 <= i < |st.runs| :: st.runs[i].session == Advance(st, e).runs[i].session
  {
  }

  lemma SessionsOfOneMore(runs: seq<Run>, r: Run)
    ensures SessionSet(runs + [r]) == SessionSet(runs) + {r.session}
    ensures FirstSeen(runs + [r]) == FirstSeen(runs) + if r.session in SessionSet(runs) then [] else [r.session]
  {
    assert (runs + [r])[..|runs|] == runs;
  }

  lemma LastIsSession(runs: seq<Run>)
    requires runs != []
    ensures Last(runs).session in SessionSet(runs)
  {
  }

  lemma NumbersGrow(n: nat)
    ensures Numbers(n + 1) == Numbers(n) + [n + 1]
  {
  }

  /** The sessions of a trace are numbered from 1 in the order of its scrolls. */
  lemma {:induction false} SessionsAreNumbered(events: seq<Event>)
    ensures SessionsCountUp(Split(events))
  {
    if events == [] {
      assert Numbers(0) == [];
    } else {
      var before := events[..|events| - 1];
      SessionsAreNumbered(before);
      RunsAreTheTrace(before);
      AdvanceCountsUp(before, Split(before), Last(events));
    }
  }

  /** The reference: the trace's scrolls, read off its gesture and presented frames alone. */
  function Scrolls(events: seq<Event>): seq<seq<Frame>> {
    var tagged := TaggedFrames(events);
    var n := if tagged == [] then 0 else Last(tagged).session;
    seq(n, i requires 0 <= i < n => ScrollFrames(tagged, i + 1))
  }

  lemma SessionsAreScrolls(events: seq<Event>)
    ensures FirstSeen(SplitRuns(events)) == Numbers(|Scrolls(events)|)
  {
    SessionsAreNumbered(events);
    RunsAreTheTrace(events);
    SameSessions(Split(events).runs, SplitRuns(events));
  }

  lemma {:induction false} FirstSeenAreSessions(runs: seq<Run>)
    ensures forall s | s in FirstSeen(runs) :: s in SessionSet(runs)
  {
    if runs != [] {
      FirstSeenAreSessions(runs[..|runs| - 1]);
    }
  }

  lemma ScrollsInOrder(events: seq<Event>)
    ensures var order := FirstSeen(SplitRuns(events));
            && |order| == |Scrolls(events)|
            && (forall i | 0 <= i < |order| :: order[i] in SessionSet(SplitRuns(events)))
            && (forall i | 0 <= i < |order| :: FramesOfSession(SplitRuns(events), order[i]) == Scrolls(events)[i])
  {
    var order := FirstSeen(SplitRuns(events));
    SessionsAreScrolls(events);
    FirstSeenAreSessions(SplitRuns(events));
    assert forall i | 0 <= i < |order| :: order[i] in order;
    forall i | 0 <= i < |order|
      ensures FramesOfSession(SplitRuns(events), order[i]) == Scrolls(events)[i]
    {
      RegroupingUndoesTheSplit(events, i + 1);
    }
  }

  /** The values of a dictionary in the order of its keys. */
  method Values(sessions: map<nat, seq<Frame>>, order: seq<nat>) returns (values: seq<seq<Frame>>)
    requires forall i | 0 <= i < |order| :: order[i] in sessions
    ensures |values| == |order| && forall i | 0 <= i < |order| :: values[i] == sessions[order[i]]
  {
    values := [];
    for i := 0 to |order|
      invariant |values| == i && forall j | 0 <= j < i :: values[j] == sessions[order[j]]
    {
      values := values + [sessions[order[i]]];
    }
  }

  /** The runs of a trace, grouped again, are its scrolls. */
  method ReadScrolls(ghost events: seq<Event>, runs: seq<Run>) returns (scrolls: seq<seq<Frame>>)
    requires runs == SplitRuns(events)
    ensures scrolls == Scrolls(events)
  {
    var sessions, order := GroupBySession(runs);
    ScrollsInOrder(events);
    scrolls := Values(sessions, order);
  }

  // ---------- M3: path against net ----------

  datatype Scroll = Scroll(net: real, path: real, forward: real, backward: real)

  function Path(offsets: seq<real>): real {
    if |offsets| < 2 then 0.0
    else Path(offsets[..|offsets| - 1]) + Abs(offsets[|offsets| - 1] - offsets[|offsets| - 2])
  }

  /** The movement along the heading, or against it. */
  function Moved(offsets: seq<real>, rising: bool, forward: bool): real {
    if |offsets| < 2 then 0.0
    else
      var delta := offsets[|offsets| - 1] - offsets[|offsets| - 2];
      Moved(offsets[..|offsets| - 1], rising, forward)
      + if (Along(delta, rising) > 0.0) == forward then Abs(delta) else 0.0
  }

  function Net(offsets: seq<real>): real
    requires offsets != []
  {
    offsets[|offsets| - 1] - offsets[0]
  }

  /** Movement telescopes: forward and backward add up to the path and differ by the net. */
  lemma {:induction false} MovementTelescopes(offsets: seq<real>, rising: bool)
    requires offsets != []
    ensures Path(offsets) == Moved(offsets, rising, true) + Moved(offsets, rising, false)
    ensures Along(Net(offsets), rising) == Moved(offsets, rising, true) - Moved(offsets, rising, false)
    ensures Moved(offsets, rising, true) >= 0.0 && Moved(offsets, rising, false) >= 0.0
  {
    if |offsets| >= 2 {
      MovementTelescopes(offsets[..|offsets| - 1], rising);
    }
  }

  /** The ratio of a scroll, undefined while the net is within one pixel. */
  function Ratio(path: real, net: real): Option<real> {
    if Abs(net) > 1.0 then Some(path / Abs(net)) else None
  }

  method MeasureScroll(offsets: seq<real>) returns (s: Scroll)
    requires |offsets| >= 2
    ensures s.net == Net(offsets) && s.path == Path(offsets)
    ensures s.path == s.forward + s.backward && Abs(s.net) == s.forward - s.backward
    ensures s.forward >= 0.0 && s.backward >= 0.0
  {
    var rising := offsets[|offsets| - 1] >= offsets[0];
    var path, forward, backward := 0.0, 0.0, 0.0;
    for i := 1 to |offsets|
      invariant path == Path(offsets[..i])
      invariant forward == Moved(offsets[..i], rising, true) && backward == Moved(offsets[..i], rising, false)
    {
      assert offsets[..i + 1][..i] == offsets[..i];
      var delta := offsets[i] - offsets[i - 1];
      path := path + Abs(delta);
      if Along(delta, rising) > 0.0 {
        forward := forward + Abs(delta);
      } else {
        backward := backward + Abs(delta);
      }
    }
    assert offsets[..|offsets|] == offsets;
    MovementTelescopes(offsets, rising);
    s := Scroll(offsets[|offsets| - 1] - offsets[0], path, forward, backward);
  }

  function Offsets(frames: seq<Frame>): (o: seq<real>)
    ensures |o| == |frames|
  {
    seq(|frames|, i requires 0 <= i < |frames| => frames[i].offset)
  }

  function TotalPath(scrolls: seq<seq<Frame>>): real {
    if scrolls == [] then 0.0
    else TotalPath(scrolls[..|scrolls| - 1]) + Path(Offsets(scrolls[|scrolls| - 1]))
  }

  function TotalNet(scrolls: seq<seq<Frame>>): real {
    if scrolls == [] then 0.0
    else
      var last := scrolls[|scrolls| - 1];
      TotalNet(scrolls[..|scrolls| - 1]) + if |last| < 2 then 0.0 else Net(Offsets(last))
  }

  function TotalForward(scrolls: seq<Scroll>): real {
    if scrolls == [] then 0.0
    else TotalForward(scrolls[..|scrolls| - 1]) + scrolls[|scrolls| - 1].forward
  }

  /** The scrolls that are measured: a single frame has not moved. */
  function Measured(scrolls: seq<seq<Frame>>): seq<seq<Frame>> {
    if scrolls == [] then []
    else
      var last := scrolls[|scrolls| - 1];
      Measured(scrolls[..|scrolls| - 1]) + if |last| < 2 then [] else [last]
  }

  /** What is reported for one scroll: a ratio, where there is one, is never below one. */
  ghost predicate Reports(s: Scroll, frames: seq<Frame>) {
    && frames != [] && s.net == Net(Offsets(frames)) && s.path == Path(Offsets(frames))
    && s.path == s.forward + s.backward && Abs(s.net) == s.forward - s.backward
    && (Ratio(s.path, s.net).Some? ==> Ratio(s.path, s.net).value >= 1.0)
  }

  /** Every scroll and the whole trace travel at least as far as they get, so no ratio is below one. */
  method MeasureM3(scrolls: seq<seq<Frame>>) returns (perScroll: seq<Scroll>, total: Scroll)
    ensures |perScroll| == |Measured(scrolls)|
    ensures forall i | 0 <= i < |perScroll| :: Reports(perScroll[i], Measured(scrolls)[i])
    ensures total.path == TotalPath(scrolls) && total.net == TotalNet(scrolls)
    ensures total.forward == TotalForward(perScroll)
    ensures total.path == total.forward + total.backward && Abs(total.net) <= total.forward - total.backward
    ensures Ratio(total.path, total.net).Some? ==> Ratio(total.path, total.net).value >= 1.0
  {
    perScroll := [];
    var path, forward, backward, net := 0.0, 0.0, 0.0, 0.0;
    for i := 0 to |scrolls|
      invariant |perScroll| == |Measured(scrolls[..i])|
      invariant forall j | 0 <= j < |perScroll| :: Reports(perScroll[j], Measured(scrolls[..i])[j])
      invariant path == TotalPath(scrolls[..i]) && net == TotalNet(scrolls[..i])
      invariant forward == TotalForward(perScroll)
      invariant path == forward + backward && Abs(net) <= forward - backward && backward >= 0.0
    {
      assert scrolls[..i + 1][..i] == scrolls[..i];
      if |scrolls[i]| < 2 {
        continue;
      }
      var s := MeasureScroll(Offsets(scrolls[i]));
      path, forward, backward, net := path + s.path, forward + s.forward, backward + s.backward, net + s.net;
      RatioAtLeastOne(s.path, s.net);
      assert (perScroll + [s])[..|perScroll|] == perScroll;
      perScroll := perScroll + [s];
    }
    assert scrolls[..|scrolls|] == scrolls;
    RatioAtLeastOne(path, net);
    total := Scroll(net, path, forward, backward);
  }

  lemma RatioAtLeastOne(path: real, net: real)
    requires path >= Abs(net)
    ensures Ratio(path, net).Some? ==> Ratio(path, net).value >= 1.0
  {
  }

  /** A path is the sum of its steps: any place in it splits it, and one step is as long as it is. */
  lemma {:induction false} PathIsSumOfSteps(a: seq<real>, x: real, b: seq<real>, y: real)
    ensures Path(a + [x] + b) == Path(a + [x]) + Path([x] + b)
    ensures Path([x]) == 0.0 && Path([x, y]) == if x <= y then y - x else x - y
  {
    assert Path([x, y]) == Path([x]) + Abs(y - x) by {
      assert [x, y][..1] == [x];
    }
    if b == [] {
      assert a + [x] + b == a + [x] && [x] + b == [x];
    } else {
      var n := |b| - 1;
      PathIsSumOfSteps(a, x, b[..n], y);
      assert (a + [x] + b)[..|a| + 1 + n] == a + [x] + b[..n];
      assert ([x] + b)[..1 + n] == [x] + b[..n];
      assert n > 0 ==> (a + [x] + b)[|a| + n] == b[n - 1];
    }
  }

  /** The totals add up scroll by scroll, over the scrolls of two frames and more. */
  lemma {:induction false} TotalsAddUp(a: seq<seq<Frame>>, b: seq<seq<Frame>>)
    ensures TotalPath(a + b) == TotalPath(a) + TotalPath(b) && TotalNet(a + b) == TotalNet(a) + TotalNet(b)
    ensures Measured(a + b) == Measured(a) + Measured(b)
  {
    if b == [] {
      assert a + b == a;
    } else {
      var init, last := b[..|b| - 1], b[|b| - 1];
      TotalsAddUp(a, init);
      assert a + b == (a + init) + [last] && b == init + [last];
      TotalsOneMore(a + init, last);
      TotalsOneMore(init, last);
      Regrouped(Measured(a), Measured(init), if |last| >= 2 then [last] else []);
    }
  }

  lemma TotalsOneMore(scrolls: seq<seq<Frame>>, last: seq<Frame>)
    ensures TotalPath(scrolls + [last]) == TotalPath(scrolls) + Path(Offsets(last))
    ensures TotalNet(scrolls + [last])
            == TotalNet(scrolls) + if |last| >= 2 then last[|last| - 1].offset - last[0].offset else 0.0
    ensures Measured(scrolls + [last]) == Measured(scrolls) + if |last| >= 2 then [last] else []
  {
    assert (scrolls + [last])[..|scrolls|] == scrolls;
  }

  lemma Regrouped<T>(x: seq<T>, y: seq<T>, z: seq<T>)
    ensures (x + y) + z == x + (y + z)
  {
  }

  /** A scroll adds the path of its own offsets, and a scroll of one frame adds nothing. */
  lemma TotalsOfOne(frames: seq<Frame>, offsets: seq<real>)
    requires |offsets| == |frames| && forall i | 0 <= i < |frames| :: offsets[i] == frames[i].offset
    ensures TotalPath([frames]) == Path(offsets) && (|frames| < 2 ==> TotalPath([frames]) == 0.0)
    ensures TotalNet([frames]) == if |frames| >= 2 then offsets[|offsets| - 1] - offsets[0] else 0.0
    ensures Measured([frames]) == if |frames| >= 2 then [frames] else []
  {
    assert offsets == Offsets(frames);
    TotalsOneMore([], frames);
    assert [] + [frames] == [frames];
  }

  /** A ratio is path over net, and there is none while the net is a pixel or less. */
  lemma RatioMeans(path: real, net: real)
    ensures Ratio(path, net).None? <==> -1.0 <= net <= 1.0
    ensures Ratio(path, net).Some? ==> Ratio(path, net).value * (if net < 0.0 then -net else net) == path
  {
  }

  // ---------- reverse drift by density ----------

  const TELEPORT_PX: real := 2000.0

  /** The four density buckets; the last is open-ended. */
  function BucketOf(density: int): Option<nat> {
    if density < 0 then None
    else if density <= 5 then Some(0)
    else if density <= 20 then Some(1)
    else if density <= 60 then Some(2)
    else Some(3)
  }

  const BUCKETS: seq<(int, Option<int>)> := [(0, Some(5)), (6, Some(20)), (21, Some(60)), (61, None)]

  predicate InBucket(density: int, b: nat)
    requires b < |BUCKETS|
  {
    !(density < BUCKETS[b].0 || (BUCKETS[b].1.Some? && density > BUCKETS[b].1.value))
  }

  /** The buckets partition the non-negative integers: each density lies in the one `BucketOf` names. */
  lemma BucketsPartition(density: int, b: nat)
    requires b < |BUCKETS|
    ensures InBucket(density, b) <==> BucketOf(density) == Some(b)
    ensures density >= 0 <==> BucketOf(density).Some?
  {
  }

  /** Two consecutive frames of a scroll that got somewhere, with the scroll's heading. */
  datatype Pair = Pair(delta: real, swing: real, density: Option<int>, rising: bool)
  datatype Class = NoDensity | Teleport | Unbucketed | Bucketed(b: nat)

  function Classify(p: Pair, teleport: real): Class {
    if p.density.None? then NoDensity
    else if Abs(p.delta) > teleport then Teleport
    else match BucketOf(p.density.value)
      case None => Unbucketed
      case Some(b) => Bucketed(b)
  }

  datatype Bucket = Bucket(
    frames: nat, path: real, progress: real, reverseFrames: nat, reverse: real, swings: seq<real>)

  const EMPTY: Bucket := Bucket(0, 0.0, 0.0, 0, 0.0, [])

  function Add(b: Bucket, p: Pair): Bucket {
    var along := Along(p.delta, p.rising);
    Bucket(b.frames + 1, b.path + Abs(p.delta), b.progress + along,
           b.reverseFrames + if along < 0.0 then 1 else 0,
           b.reverse + if along < 0.0 then Abs(p.delta) else 0.0,
           b.swings + [p.swing])
  }

  /** The pairs of one class, in order. */
  function OfClass(pairs: seq<Pair>, c: Class, teleport: real): seq<Pair> {
    if pairs == [] then []
    else OfClass(pairs[..|pairs| - 1], c, teleport)
         + if Classify(pairs[|pairs| - 1], teleport) == c then [pairs[|pairs| - 1]] else []
  }

  function Summary(pairs: seq<Pair>): Bucket {
    if pairs == [] then EMPTY else Add(Summary(pairs[..|pairs| - 1]), pairs[|pairs| - 1])
  }

  /** In every bucket, progress is the path less twice what was lost, and each pair left one swing. */
  lemma {:induction false} BucketArithmetic(pairs: seq<Pair>)
    ensures var b := Summary(pairs);
            && b.frames == |pairs| == |b.swings|
            && b.progress == b.path - 2.0 * b.reverse
            && 0.0 <= b.reverse <= b.path && b.reverseFrames <= b.frames
            && (b.reverseFrames == 0 <==> b.reverse == 0.0)
  {
    if pairs != [] {
      BucketArithmetic(pairs[..|pairs| - 1]);
    }
  }

  /** Every pair is counted exactly once. */
  lemma {:induction false} ClassesPartition(pairs: seq<Pair>, teleport: real)
    ensures |pairs| == |OfClass(pairs, NoDensity, teleport)| + |OfClass(pairs, Teleport, teleport)|
                       + |OfClass(pairs, Unbucketed, teleport)|
                       + |OfClass(pairs, Bucketed(0), teleport)| + |OfClass(pairs, Bucketed(1), teleport)|
                       + |OfClass(pairs, Bucketed(2), teleport)| + |OfClass(pairs, Bucketed(3), teleport)|
    ensures (forall i | 0 <= i < |pairs| :: pairs[i].density.Some? ==> pairs[i].density.value >= 0)
            ==> OfClass(pairs, Unbucketed, teleport) == []
  {
    if pairs != [] {
      ClassesPartition(pairs[..|pairs| - 1], teleport);
    }
  }

  datatype Field = InSpan | Realized

  function Density(f: Frame, field: Field): Option<int> {
    match field
    case InSpan => f.collapsed.inSpan
    case Realized => f.collapsed.realized
  }

  function PairAt(frames: seq<Frame>, i: nat, field: Field): Pair
    requires 0 < i < |frames|
  {
    Pair(frames[i].offset - frames[i - 1].offset, Abs(frames[i].contentHeight - frames[i - 1].contentHeight),
         Density(frames[i], field), frames[|frames| - 1].offset >= frames[0].offset)
  }

  function FirstPairs(frames: seq<Frame>, n: nat, field: Field): (pairs: seq<Pair>)
    requires n < |frames|
    ensures |pairs| == n
  {
    seq(n, i requires 0 <= i < n => PairAt(frames, i + 1, field))
  }

  function PairsOf(frames: seq<Frame>, field: Field): seq<Pair> {
    if |frames| < 2 || frames[|frames| - 1].offset == frames[0].offset then []
    else FirstPairs(frames, |frames| - 1, field)
  }

  function Pairs(scrolls: seq<seq<Frame>>, field: Field): seq<Pair> {
    if scrolls == [] then []
    else Pairs(scrolls[..|scrolls| - 1], field) + PairsOf(scrolls[|scrolls| - 1], field)
  }

  ghost predicate Tallied(pairs: seq<Pair>, teleport: real, buckets: seq<Bucket>, teleports: nat) {
    && |buckets| == |BUCKETS|
    && (forall b | 0 <= b < |BUCKETS| :: buckets[b] == Summary(OfClass(pairs, Bucketed(b), teleport)))
    && teleports == |OfClass(pairs, Teleport, teleport)|
  }

  lemma TallyOne(pairs: seq<Pair>, p: Pair, c: Class, teleport: real)
    ensures OfClass(pairs + [p], c, teleport)
            == if Classify(p, teleport) == c then OfClass(pairs, c, teleport) + [p] else OfClass(pairs, c, teleport)
    ensures Classify(p, teleport) == c ==>
              Summary(OfClass(pairs + [p], c, teleport)) == Add(Summary(OfClass(pairs, c, teleport)), p)
  {
    assert (pairs + [p])[..|pairs|] == pairs;
    var before := OfClass(pairs, c, teleport);
    assert (before + [p])[..|before|] == before;
    assert before + [] == before;
  }

  lemma TallyAll(pairs: seq<Pair>, p: Pair, teleport: real, buckets: seq<Bucket>, teleports: nat)
    requires Tallied(pairs, teleport, buckets, teleports)
    ensures match Classify(p, teleport)
            case Teleport => Tallied(pairs + [p], teleport, buckets, teleports + 1)
            case Bucketed(b) => Tallied(pairs + [p], teleport, buckets[b := Add(buckets[b], p)], teleports)
            case _ => Tallied(pairs + [p], teleport, buckets, teleports)
  {
    TeleportsGrow(pairs, p, teleport);
    forall b: nat | b < |BUCKETS|
      ensures Summary(OfClass(pairs + [p], Bucketed(b), teleport))
              == if Classify(p, teleport) == Bucketed(b) then Add(buckets[b], p) else buckets[b]
    {
      assert buckets[b] == Summary(OfClass(pairs, Bucketed(b), teleport));
      TallyOne(pairs, p, Bucketed(b), teleport);
    }
  }

  lemma TeleportsGrow(pairs: seq<Pair>, p: Pair, teleport: real)
    ensures |OfClass(pairs + [p], Teleport, teleport)|
            == |OfClass(pairs, Teleport, teleport)| + if Classify(p, teleport) == Teleport then 1 else 0
  {
    TallyOne(pairs, p, Teleport, teleport);
  }

  method TallyPair(ghost pairs: seq<Pair>, p: Pair, teleport: real, buckets: seq<Bucket>, teleports: nat)
    returns (buckets': seq<Bucket>, teleports': nat)
    requires Tallied(pairs, teleport, buckets, teleports)
    ensures Tallied(pairs + [p], teleport, buckets', teleports')
  {
    TallyAll(pairs, p, teleport, buckets, teleports);
    if p.density.None? {
      return buckets, teleports;
    }
    if Abs(p.delta) > teleport {
      return buckets, teleports + 1;
    }
    for b := 0 to |BUCKETS|
      invariant forall c: nat | c < b :: BucketOf(p.density.value) != Some(c)
    {
      BucketsPartition(p.density.value, b);
      if InBucket(p.density.value, b) {
        return buckets[b := Add(buckets[b], p)], teleports;
      }
    }
    return buckets, teleports;
  }

  lemma OneMorePair(pairs: seq<Pair>, frames: seq<Frame>, n: nat, field: Field)
    requires 0 < n < |frames|
    ensures pairs + FirstPairs(frames, n, field)
            == (pairs + FirstPairs(frames, n - 1, field)) + [PairAt(frames, n, field)]
  {
  }

  method TallyScroll(ghost pairs: seq<Pair>, frames: seq<Frame>, field: Field, teleport: real,
                     buckets: seq<Bucket>, teleports: nat)
    returns (buckets': seq<Bucket>, teleports': nat)
    requires Tallied(pairs, teleport, buckets, teleports)
    ensures Tallied(pairs + PairsOf(frames, field), teleport, buckets', teleports')
  {
    buckets', teleports' := buckets, teleports;
    if |frames| < 2 || frames[|frames| - 1].offset == frames[0].offset {
      assert pairs + [] == pairs;
      return;
    }
    ghost var tallied := pairs;
    for i := 1 to |frames|
      invariant tallied == pairs + FirstPairs(frames, i - 1, field)
      invariant Tallied(tallied, teleport, buckets', teleports')
    {
      OneMorePair(pairs, frames, i, field);
      var p := PairAt(frames, i, field);
      buckets', teleports' := TallyPair(tallied, p, teleport, buckets', teleports');
      tallied := tallied + [p];
    }
  }

  method MeasureReverseDrift(scrolls: seq<seq<Frame>>, field: Field, teleport: real)
    returns (buckets: seq<Bucket>, teleports: nat)
    ensures Tallied(Pairs(scrolls, field), teleport, buckets, teleports)
  {
    buckets, teleports := [EMPTY, EMPTY, EMPTY, EMPTY], 0;
    for s := 0 to |scrolls|
      invariant Tallied(Pairs(scrolls[..s], field), teleport, buckets, teleports)
    {
      assert scrolls[..s + 1][..s] == scrolls[..s];
      buckets, teleports :=
        TallyScroll(Pairs(scrolls[..s], field), scrolls[s], field, teleport, buckets, teleports);
    }
    assert scrolls[..|scrolls|] == scrolls;
  }

  /** What a drift table says about its trace. */
  lemma DriftTable(pairs: seq<Pair>, teleport: real, buckets: seq<Bucket>, teleports: nat)
    requires Tallied(pairs, teleport, buckets, teleports)
    ensures forall b | 0 <= b < |BUCKETS| ::
              && buckets[b].progress == buckets[b].path - 2.0 * buckets[b].reverse
              && |buckets[b].swings| == buckets[b].frames
    ensures |pairs| == buckets[0].frames + buckets[1].frames + buckets[2].frames + buckets[3].frames + teleports
                       + |OfClass(pairs, NoDensity, teleport)| + |OfClass(pairs, Unbucketed, teleport)|
    ensures (forall i | 0 <= i < |pairs| :: pairs[i].density.Some? ==> pairs[i].density.value >= 0)
            ==> OfClass(pairs, Unbucketed, teleport) == []
  {
    ClassesPartition(pairs, teleport);
    forall b | 0 <= b < |BUCKETS|
      ensures buckets[b].progress == buckets[b].path - 2.0 * buckets[b].reverse
      ensures buckets[b].frames == |OfClass(pairs, Bucketed(b), teleport)| == |buckets[b].swings|
    {
      BucketArithmetic(OfClass(pairs, Bucketed(b), teleport));
    }
  }

  /** The bucket of a density, by the four ranges the table is printed with. */
  lemma BucketMeans(density: int)
    ensures BucketOf(density).None? <==> density < 0
    ensures BucketOf(density) == Some(0) <==> 0 <= density <= 5
    ensures BucketOf(density) == Some(1) <==> 6 <= density <= 20
    ensures BucketOf(density) == Some(2) <==> 21 <= density <= 60
    ensures BucketOf(density) == Some(3) <==> 61 <= density
  {
  }

  /** A scroll that got nowhere has no pairs, any other one for each frame but the first. */
  lemma PairsOfScroll(frames: seq<Frame>, field: Field)
    ensures PairsOf(frames, field) == [] <==> |frames| < 2 || frames[0].offset == frames[|frames| - 1].offset
    ensures PairsOf(frames, field) != [] ==> |PairsOf(frames, field)| == |frames| - 1
  {
  }

  /** A pair has the move and the change of height since the frame before, and the density of the table's own field. */
  lemma PairMeans(frames: seq<Frame>, field: Field, i: nat)
    requires i < |PairsOf(frames, field)|
    ensures |PairsOf(frames, field)| == |frames| - 1
    ensures var p, before, after := PairsOf(frames, field)[i], frames[i], frames[i + 1];
            && p.delta == after.offset - before.offset
            && p.swing >= 0.0
            && (before.contentHeight + p.swing == after.contentHeight
                || before.contentHeight - p.swing == after.contentHeight)
            && (field == InSpan ==> p.density == after.collapsed.inSpan)
            && (field == Realized ==> p.density == after.collapsed.realized)
            && (p.rising <==> frames[0].offset < frames[|frames| - 1].offset)
  {
  }

  /** The pairs of a trace are those of its scrolls, scroll after scroll. */
  lemma PairsOneMore(scrolls: seq<seq<Frame>>, frames: seq<Frame>, more: seq<Pair>, field: Field)
    requires more == PairsOf(frames, field)
    ensures Pairs(scrolls + [frames], field) == Pairs(scrolls, field) + more && Pairs([], field) == []
  {
    assert (scrolls + [frames])[..|scrolls|] == scrolls;
  }

  /** The class of a pair: without a density, a teleport beyond the cap, or the bucket of its density. */
  lemma ClassMeans(p: Pair, teleport: real)
    ensures var c, far := Classify(p, teleport), p.delta > teleport || -p.delta > teleport;
            && (c == NoDensity <==> p.density.None?)
            && (c == Teleport <==> p.density.Some? && far)
            && (c == Unbucketed <==> p.density.Some? && !far && p.density.value < 0)
            && (c == Bucketed(0) <==> p.density.Some? && !far && 0 <= p.density.value <= 5)
            && (c == Bucketed(1) <==> p.density.Some? && !far && 6 <= p.density.value <= 20)
            && (c == Bucketed(2) <==> p.density.Some? && !far && 21 <= p.density.value <= 60)
            && (c == Bucketed(3) <==> p.density.Some? && !far && 61 <= p.density.value)
  {
  }

  /** The pairs of a class are all of that class, in order, none left out. */
  lemma ClassOneMore(pairs: seq<Pair>, p: Pair, c: Class, teleport: real)
    ensures OfClass(pairs + [p], c, teleport)
            == OfClass(pairs, c, teleport) + if Classify(p, teleport) == c then [p] else []
    ensures OfClass([], c, teleport) == []
  {
    TallyOne(pairs, p, c, teleport);
  }

  /** What one pair adds to its bucket: ground won along the heading of its scroll, or ground lost. */
  lemma SummaryMeans(pairs: seq<Pair>, p: Pair)
    ensures var b, b' := Summary(pairs), Summary(pairs + [p]);
            var lost := if p.rising then p.delta < 0.0 else p.delta > 0.0;
            var far := if p.delta < 0.0 then -p.delta else p.delta;
            && b' == Bucket(b.frames + 1, b.path + far, if lost then b.progress - far else b.progress + far,
                            if lost then b.reverseFrames + 1 else b.reverseFrames,
                            if lost then b.reverse + far else b.reverse, b.swings + [p.swing])
            && Summary([]) == Bucket(0, 0.0, 0.0, 0, 0.0, [])
  {
    assert (pairs + [p])[..|pairs|] == pairs;
  }
}
