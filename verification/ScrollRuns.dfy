/** `split_runs`: cutting a trace of layout events into scroll runs. */
module ScrollRuns {
  import opened Options

  /** Row counts reported with a frame; a field the event lacks is None. */
  datatype Collapsed = Collapsed(
    realized: Option<int>, inSpan: Option<int>, inViewport: Option<int>, indexSpan: Option<int>)

  const UNKNOWN: Collapsed := Collapsed(None, None, None, None)
  const SETTLE_PX: real := 2.0

  datatype Event =
    | FramePresented
    | GestureFrame(direction: int, phase: string, offset: real, contentHeight: real)
    | RowVisibility(phase: string, keys: seq<string>, collapsed: Collapsed)
    | OtherEvent

  datatype Frame = Frame(phase: string, offset: real, contentHeight: real, collapsed: Collapsed)
  datatype Sample = Sample(phase: string, keys: seq<string>)
  datatype Run = Run(direction: int, session: nat, frames: seq<Frame>, visibility: seq<Sample>)

  function FrameOf(e: Event): Frame
    requires e.GestureFrame?
  {
    Frame(e.phase, e.offset, e.contentHeight, UNKNOWN)
  }

  // ---------- the splitter ----------

  /** `open` says that the newest run still takes frames. */
  datatype Splitter = Splitter(runs: seq<Run>, open: bool, hadGesture: bool, idle: bool, session: nat)

  function WithLast<T>(s: seq<T>, x: T): (r: seq<T>)
    requires s != []
    ensures |r| == |s| && r[|s| - 1] == x && r[..|s| - 1] == s[..|s| - 1]
  {
    s[|s| - 1 := x]
  }

  function Last<T>(s: seq<T>): T
    requires s != []
  {
    s[|s| - 1]
  }

  predicate Continues(st: Splitter, direction: int) {
    st.open && st.runs != [] && Last(st.runs).direction == direction
  }

  function Advance(st: Splitter, e: Event): Splitter {
    match e
    case FramePresented =>
      st.(open := st.open && st.hadGesture, idle := st.idle || !st.hadGesture, hadGesture := false)
    case GestureFrame(direction, _, _, _) =>
      var session := if st.idle then st.session + 1 else st.session;
      var runs :=
        if Continues(st, direction)
        then WithLast(st.runs, Last(st.runs).(frames := Last(st.runs).frames + [FrameOf(e)]))
        else st.runs + [Run(direction, session, [FrameOf(e)], [])];
      Splitter(runs, true, true, false, session)
    case RowVisibility(phase, keys, collapsed) =>
      if !st.open || st.runs == [] then st
      else
        var run := Last(st.runs);
        var frames := if run.frames == [] then [] else WithLast(run.frames, Last(run.frames).(collapsed := collapsed));
        st.(runs := WithLast(st.runs, run.(frames := frames, visibility := run.visibility + [Sample(phase, keys)])))
    case OtherEvent => st
  }

  function Split(events: seq<Event>): Splitter {
    if events == [] then Splitter([], false, false, true, 0)
    else Advance(Split(events[..|events| - 1]), Last(events))
  }

  /** Direction of a run the view could not name: where it got to, unless that is within the settle distance. */
  function InferredDirection(r: Run): int {
    if |r.frames| < 2 then 0
    else
      var net := Last(r.frames).offset - r.frames[0].offset;
      if -SETTLE_PX <= net <= SETTLE_PX then 0 else if net < 0.0 then 1 else -1
  }

  function Named(r: Run): Run {
    r.(direction := if r.direction != 0 then r.direction else InferredDirection(r))
  }

  function SplitRuns(events: seq<Event>): (runs: seq<Run>)
    ensures |runs| == |Split(events).runs|
  {
    var runs := Split(events).runs;
    seq(|runs|, i requires 0 <= i < |runs| => Named(runs[i]))
  }

  method ReadRuns(events: seq<Event>) returns (runs: seq<Run>)
    ensures runs == SplitRuns(events)
  {
    runs := [];
    var open, hadGesture, idle, session := false, false, true, 0;
    for i := 0 to |events|
      invariant Splitter(runs, open, hadGesture, idle, session) == Split(events[..i])
    {
      assert events[..i + 1][..i] == events[..i];
      match events[i]
      case FramePresented =>
        if !hadGesture {
          open := false;
          idle := true;
        }
        hadGesture := false;
      case GestureFrame(direction, _, _, _) =>
        hadGesture := true;
        if idle {
          session := session + 1;
          idle := false;
        }
        if open && runs != [] && runs[|runs| - 1].direction == direction {
          var run := runs[|runs| - 1];
          runs := WithLast(runs, run.(frames := run.frames + [FrameOf(events[i])]));
        } else {
          runs := runs + [Run(direction, session, [FrameOf(events[i])], [])];
        }
        open := true;
      case RowVisibility(phase, keys, collapsed) =>
        if open && runs != [] {
          var run := runs[|runs| - 1];
          run := run.(visibility := run.visibility + [Sample(phase, keys)]);
          if run.frames != [] {
            run := run.(frames := WithLast(run.frames, Last(run.frames).(collapsed := collapsed)));
          }
          runs := WithLast(runs, run);
        }
      case OtherEvent =>
    }
    assert events[..|events|] == events;
    var named := [];
    for i := 0 to |runs|
      invariant |named| == i && forall j | 0 <= j < i :: named[j] == Named(runs[j])
    {
      named := named + [Named(runs[i])];
    }
    runs := named;
  }

  // ---------- what the splitting means ----------

  /** A gesture frame with the scroll it belongs to and the direction the view reported for it. */
  datatype Tagged = Tagged(session: nat, direction: int, frame: Frame)

  /** How many frames were presented after the newest gesture frame. */
  function PresentsSinceGesture(events: seq<Event>): nat {
    if events == [] then 0
    else match Last(events)
      case FramePresented => PresentsSinceGesture(events[..|events| - 1]) + 1
      case GestureFrame(_, _, _, _) => 0
      case _ => PresentsSinceGesture(events[..|events| - 1])
  }

  /**
    The reference: every gesture frame of the trace once and in order. Two consecutive ones belong
    to one scroll iff at most one frame was presented between them; row counts reach the newest
    frame until the second presented frame.
   */
  function TaggedFrames(events: seq<Event>): seq<Tagged> {
    if events == [] then []
    else
      var before, e := events[..|events| - 1], Last(events);
      var tagged := TaggedFrames(before);
      match e
      case GestureFrame(direction, _, _, _) =>
        var session := if tagged == [] then 1
                       else if PresentsSinceGesture(before) <= 1 then Last(tagged).session
                       else Last(tagged).session + 1;
        tagged + [Tagged(session, direction, FrameOf(e))]
      case RowVisibility(_, _, collapsed) =>
        if tagged == [] || PresentsSinceGesture(before) > 1 then tagged
        else WithLast(tagged, Last(tagged).(frame := Last(tagged).frame.(collapsed := collapsed)))
      case _ => tagged
  }

  function TagFrames(r: Run): (t: seq<Tagged>)
    ensures |t| == |r.frames|
  {
    seq(|r.frames|, i requires 0 <= i < |r.frames| => Tagged(r.session, r.direction, r.frames[i]))
  }

  /** All frames of all runs, run after run. */
  function Flatten(runs: seq<Run>): seq<Tagged> {
    if runs == [] then [] else Flatten(runs[..|runs| - 1]) + TagFrames(Last(runs))
  }

  /** The two flags and the counter of the splitter, read off the trace. */
  predicate Agrees(events: seq<Event>, st: Splitter) {
    var tagged, presents := TaggedFrames(events), PresentsSinceGesture(events);
    && (st.runs == [] <==> tagged == [])
    && (forall i | 0 <= i < |st.runs| :: st.runs[i].frames != [])
    && (st.runs != [] ==> Last(st.runs).session == st.session)
    && st.session == (if tagged == [] then 0 else Last(tagged).session)
    && (tagged == [] ==> st.idle && !st.open && !st.hadGesture)
    && (tagged != [] ==>
          (st.idle <==> presents > 1) && (st.open <==> presents <= 1) && (st.hadGesture <==> presents == 0))
  }

  lemma FlattenWithLast(runs: seq<Run>, r: Run)
    requires runs != []
    ensures Flatten(WithLast(runs, r)) == Flatten(runs[..|runs| - 1]) + TagFrames(r)
    ensures Flatten(runs + [r]) == Flatten(runs) + TagFrames(r)
  {
    assert (runs + [r])[..|runs|] == runs;
  }

  lemma LastOfFlatten(runs: seq<Run>)
    requires runs != [] && Last(runs).frames != []
    ensures Flatten(runs) != []
    ensures Last(Flatten(runs)) == Tagged(Last(runs).session, Last(runs).direction, Last(Last(runs).frames))
  {
  }

  /**
    The runs, laid end to end, are the trace's own gesture frames: each frame once, in order, with
    the session the presented frames give it and its own reported direction.
   */
  lemma {:induction false} RunsAreTheTrace(events: seq<Event>)
    ensures Flatten(Split(events).runs) == TaggedFrames(events)
    ensures Agrees(events, Split(events))
  {
    if events != [] {
      var before, e := events[..|events| - 1], Last(events);
      RunsAreTheTrace(before);
      var st := Split(before);
      assert events == before + [e];
      match e
      case GestureFrame(_, _, _, _) => GestureKeeps(before, e, st);
      case RowVisibility(_, _, _) => VisibilityKeeps(before, e, st);
      case _ => OtherKeeps(before, e, st);
    }
  }

  lemma OtherKeeps(before: seq<Event>, e: Event, st: Splitter)
    requires e.FramePresented? || e.OtherEvent?
    requires Agrees(before, st) && Flatten(st.runs) == TaggedFrames(before)
    ensures Flatten(Advance(st, e).runs) == TaggedFrames(before + [e])
    ensures Agrees(before + [e], Advance(st, e))
  {
    assert (before + [e])[..|before|] == before;
  }

  /** A gesture frame goes to the end of the runs, whether it extends one or starts one. */
  predicate GoesLast(st: Splitter, e: Event, after: Splitter)
    requires e.GestureFrame?
  {
    && Flatten(after.runs) == Flatten(st.runs) + [Tagged(after.session, e.direction, FrameOf(e))]
    && after.runs != [] && Last(after.runs).session == after.session && Last(after.runs).frames != []
    && (forall i | 0 <= i < |after.runs| - 1 && i < |st.runs| :: after.runs[i] == st.runs[i])
  }

  lemma GestureExtendsLast(st: Splitter, e: Event)
    requires e.GestureFrame? && Continues(st, e.direction) && !st.idle && Last(st.runs).session == st.session
    ensures GoesLast(st, e, Advance(st, e)) && |Advance(st, e).runs| == |st.runs|
  {
    var r := Last(st.runs);
    var longer := r.(frames := r.frames + [FrameOf(e)]);
    FlattenWithLast(st.runs, longer);
    TagFramesAppend(r, FrameOf(e));
    assert Advance(st, e).runs == WithLast(st.runs, longer);
  }

  lemma GestureStartsRun(st: Splitter, e: Event)
    requires e.GestureFrame? && !Continues(st, e.direction)
    ensures GoesLast(st, e, Advance(st, e)) && |Advance(st, e).runs| == |st.runs| + 1
  {
    var r := Run(e.direction, Advance(st, e).session, [FrameOf(e)], []);
    assert Advance(st, e).runs == st.runs + [r];
    assert (st.runs + [r])[..|st.runs|] == st.runs;
    assert TagFrames(r) == [Tagged(r.session, e.direction, FrameOf(e))];
  }

  lemma GestureGoesLast(st: Splitter, e: Event)
    requires e.GestureFrame?
    requires Continues(st, e.direction) ==> !st.idle && Last(st.runs).session == st.session
    ensures var after := Advance(st, e);
            && Flatten(after.runs) == Flatten(st.runs) + [Tagged(after.session, e.direction, FrameOf(e))]
            && Last(after.runs).session == after.session && Last(after.runs).frames != []
            && (forall i | 0 <= i < |after.runs| - 1 :: after.runs[i] == st.runs[i])
  {
    if Continues(st, e.direction) {
      GestureExtendsLast(st, e);
    } else {
      GestureStartsRun(st, e);
    }
  }

  lemma GestureKeeps(before: seq<Event>, e: Event, st: Splitter)
    requires e.GestureFrame? && Agrees(before, st) && Flatten(st.runs) == TaggedFrames(before)
    ensures Flatten(Advance(st, e).runs) == TaggedFrames(before + [e])
    ensures Agrees(before + [e], Advance(st, e))
  {
    assert (before + [e])[..|before|] == before;
    GestureGoesLast(st, e);
  }

  lemma VisibilityKeeps(before: seq<Event>, e: Event, st: Splitter)
    requires e.RowVisibility? && Agrees(before, st) && Flatten(st.runs) == TaggedFrames(before)
    ensures Flatten(Advance(st, e).runs) == TaggedFrames(before + [e])
    ensures Agrees(before + [e], Advance(st, e))
  {
    assert (before + [e])[..|before|] == before;
    if st.runs != [] && st.open {
      VisibilityMarksLast(st, e);
    }
  }

  /** Row counts change the newest frame of the newest run and nothing else the runs are made of. */
  lemma VisibilityMarksLast(st: Splitter, e: Event)
    requires e.RowVisibility? && st.open && st.runs != [] && Last(st.runs).frames != []
    ensures var after, flat := Advance(st, e), Flatten(st.runs);
            && flat != []
            && Flatten(after.runs) == WithLast(flat, Last(flat).(frame := Last(flat).frame.(collapsed := e.collapsed)))
            && |after.runs| == |st.runs| && Last(after.runs).frames != []
            && Last(after.runs).session == Last(st.runs).session
            && after == st.(runs := after.runs)
            && (forall i | 0 <= i < |st.runs| - 1 :: after.runs[i] == st.runs[i])
  {
    var r, r' := Last(st.runs), Last(Advance(st, e).runs);
    LastOfFlatten(st.runs);
    FlattenWithLast(st.runs, r');
    assert TagFrames(r') == WithLast(TagFrames(r), Last(TagFrames(r)).(frame := Last(r'.frames)));
  }

  // ---------- row samples ----------

  /** A sample of the rows on screen, with the scroll and direction of the newest gesture frame. */
  datatype TaggedSample = TaggedSample(session: nat, direction: int, sample: Sample)

  /** The reference: every sample that comes before the second presented frame after a gesture frame, in order. */
  function TaggedSamples(events: seq<Event>): seq<TaggedSample> {
    if events == [] then []
    else
      var before := events[..|events| - 1];
      var tagged := TaggedFrames(before);
      match Last(events)
      case RowVisibility(phase, keys, _) =>
        if tagged == [] || PresentsSinceGesture(before) > 1 then TaggedSamples(before)
        else TaggedSamples(before) + [TaggedSample(Last(tagged).session, Last(tagged).direction, Sample(phase, keys))]
      case _ => TaggedSamples(before)
  }

  function TagSamples(r: Run): (t: seq<TaggedSample>)
    ensures |t| == |r.visibility|
  {
    seq(|r.visibility|, i requires 0 <= i < |r.visibility| => TaggedSample(r.session, r.direction, r.visibility[i]))
  }

  function FlattenSamples(runs: seq<Run>): seq<TaggedSample> {
    if runs == [] then [] else FlattenSamples(runs[..|runs| - 1]) + TagSamples(Last(runs))
  }

  lemma FlattenSamplesWithLast(runs: seq<Run>, r: Run)
    ensures runs != [] ==> FlattenSamples(WithLast(runs, r)) == FlattenSamples(runs[..|runs| - 1]) + TagSamples(r)
    ensures FlattenSamples(runs + [r]) == FlattenSamples(runs) + TagSamples(r)
  {
    assert (runs + [r])[..|runs|] == runs;
  }

  lemma AdvanceKeepsSamples(st: Splitter, e: Event)
    ensures FlattenSamples(Advance(st, e).runs) == FlattenSamples(st.runs)
              + match e
                case RowVisibility(phase, keys, _) =>
                  if !st.open || st.runs == [] then []
                  else [TaggedSample(Last(st.runs).session, Last(st.runs).direction, Sample(phase, keys))]
                case _ => []
  {
    if e.GestureFrame? {
      GestureKeepsSamples(st, e);
    } else if e.RowVisibility? && st.open && st.runs != [] {
      RowAddsSample(st, e);
    }
  }

  lemma GestureKeepsSamples(st: Splitter, e: Event)
    requires e.GestureFrame?
    ensures FlattenSamples(Advance(st, e).runs) == FlattenSamples(st.runs)
  {
    var r := Last(Advance(st, e).runs);
    FlattenSamplesWithLast(st.runs, r);
    if Continues(st, e.direction) {
      assert TagSamples(r) == TagSamples(Last(st.runs));
      assert Advance(st, e).runs == WithLast(st.runs, r);
    } else {
      assert TagSamples(r) == [];
      assert Advance(st, e).runs == st.runs + [r];
    }
  }

  lemma RowAddsSample(st: Splitter, e: Event)
    requires e.RowVisibility? && st.open && st.runs != []
    ensures var r := Last(st.runs);
            FlattenSamples(Advance(st, e).runs)
            == FlattenSamples(st.runs) + [TaggedSample(r.session, r.direction, Sample(e.phase, e.keys))]
  {
    var r, r' := Last(st.runs), Last(Advance(st, e).runs);
    assert Advance(st, e).runs == WithLast(st.runs, r');
    FlattenSamplesWithLast(st.runs, r');
    assert TagSamples(r') == TagSamples(r) + [TaggedSample(r.session, r.direction, Sample(e.phase, e.keys))];
  }

  /** The runs' samples, laid end to end, are the trace's own: each kept sample once, in order, in its scroll. */
  lemma {:induction false} SamplesAreTheTrace(events: seq<Event>)
    ensures FlattenSamples(Split(events).runs) == TaggedSamples(events)
  {
    if events != [] {
      var before := events[..|events| - 1];
      var st := Split(before);
      SamplesAreTheTrace(before);
      RunsAreTheTrace(before);
      AdvanceKeepsSamples(st, Last(events));
      if st.runs != [] {
        LastOfFlatten(st.runs);
      }
    }
  }

  predicate CutBetween(a: Run, b: Run) {
    a.session < b.session || (a.session == b.session && a.direction != b.direction)
  }

  predicate Maximal(runs: seq<Run>) {
    forall i | 0 < i < |runs| :: CutBetween(runs[i - 1], runs[i])
  }

  lemma AdvanceKeepsMaximal(events: seq<Event>, st: Splitter, e: Event)
    requires Agrees(events, st) && Maximal(st.runs)
    ensures Maximal(Advance(st, e).runs)
  {
    var after := Advance(st, e).runs;
    if e.GestureFrame? && st.runs != [] && !Continues(st, e.direction) {
      assert CutBetween(Last(st.runs), Last(after));
    }
  }

  /** A run is only cut where the scroll ends or the reported direction changes. */
  lemma {:induction false} RunsAreMaximal(events: seq<Event>)
    ensures Maximal(Split(events).runs)
  {
    if events != [] {
      var before := events[..|events| - 1];
      RunsAreMaximal(before);
      RunsAreTheTrace(before);
      AdvanceKeepsMaximal(before, Split(before), Last(events));
    }
  }

  // ---------- the runs read off the trace ----------

  /** What of a trace belongs to a scroll: gesture frames, and row samples tagged like the newest one. */
  datatype Item =
    | FrameItem(session: nat, direction: int, frame: Frame)
    | RowItem(session: nat, direction: int, sample: Sample, collapsed: Collapsed)

  /**
    The items of a trace, in order: a gesture frame opens a new scroll iff more than one frame was
    presented since the last, and a sample counts until the second presented frame.
   */
  function Items(events: seq<Event>): seq<Item> {
    if events == [] then []
    else
      var before, e := events[..|events| - 1], Last(events);
      var items := Items(before);
      match e
      case GestureFrame(direction, _, _, _) =>
        var session := if items == [] then 1
                       else if PresentsSinceGesture(before) <= 1 then Last(items).session
                       else Last(items).session + 1;
        items + [FrameItem(session, direction, FrameOf(e))]
      case RowVisibility(phase, keys, collapsed) =>
        if items == [] || PresentsSinceGesture(before) > 1 then items
        else items + [RowItem(Last(items).session, Last(items).direction, Sample(phase, keys), collapsed)]
      case _ => items
  }

  predicate SameRun(a: Item, b: Item) {
    a.session == b.session && a.direction == b.direction
  }

  /** The items cut wherever the session or the direction changes. */
  function Stretches(items: seq<Item>): (cut: seq<seq<Item>>)
    ensures items != [] ==> cut != [] && Last(cut) != [] && Last(Last(cut)) == Last(items)
  {
    if items == [] then []
    else
      var cut, x := Stretches(items[..|items| - 1]), Last(items);
      if cut != [] && SameRun(Last(items[..|items| - 1]), x) then WithLast(cut, Last(cut) + [x]) else cut + [[x]]
  }

  /** A run with one more item: a frame joins it, row counts go to its newest frame, a sample to its samples. */
  function Extended(r: Run, x: Item): Run {
    match x
    case FrameItem(_, _, frame) => r.(frames := r.frames + [frame])
    case RowItem(_, _, sample, collapsed) =>
      r.(frames := if r.frames == [] then [] else WithLast(r.frames, Last(r.frames).(collapsed := collapsed)),
         visibility := r.visibility + [sample])
  }

  /** One stretch as a run. */
  function RunOf(stretch: seq<Item>): Run {
    if stretch == [] then Run(0, 0, [], [])
    else
      var x := Last(stretch);
      Extended(RunOf(stretch[..|stretch| - 1]).(direction := x.direction, session := x.session), x)
  }

  function RunsOf(cut: seq<seq<Item>>): (runs: seq<Run>)
    ensures |runs| == |cut|
  {
    seq(|cut|, i requires 0 <= i < |cut| => RunOf(cut[i]))
  }

  /** The reference for the whole splitter: the stretches of the trace's own items, each named. */
  function TraceRuns(events: seq<Event>): seq<Run> {
    var cut := Stretches(Items(events));
    seq(|cut|, i requires 0 <= i < |cut| => Named(RunOf(cut[i])))
  }

  /** The splitter's state, read off the items. */
  ghost predicate Follows(events: seq<Event>, st: Splitter) {
    var items, presents := Items(events), PresentsSinceGesture(events);
    && st.runs == RunsOf(Stretches(items))
    && st.session == (if items == [] then 0 else Last(items).session)
    && (items == [] ==> st.idle && !st.open && !st.hadGesture)
    && (items != [] ==>
          (st.idle <==> presents > 1) && (st.open <==> presents <= 1) && (st.hadGesture <==> presents == 0))
  }

  lemma StretchesGrow(items: seq<Item>, x: Item)
    ensures var cut := Stretches(items);
            Stretches(items + [x])
            == if items != [] && SameRun(Last(items), x) then WithLast(cut, Last(cut) + [x]) else cut + [[x]]
  {
    assert (items + [x])[..|items|] == items;
  }

  lemma RunsOfParts(cut: seq<seq<Item>>, stretch: seq<Item>)
    ensures RunsOf(cut + [stretch]) == RunsOf(cut) + [RunOf(stretch)]
    ensures cut != [] ==> RunsOf(WithLast(cut, stretch)) == WithLast(RunsOf(cut), RunOf(stretch))
  {
  }

  lemma RunGrows(stretch: seq<Item>, x: Item)
    requires stretch != [] && SameRun(Last(stretch), x)
    ensures RunOf(stretch).session == x.session && RunOf(stretch).direction == x.direction
    ensures RunOf(stretch + [x]) == Extended(RunOf(stretch), x)
  {
    assert (stretch + [x])[..|stretch|] == stretch;
  }

  lemma FirstOfRun(x: Item)
    ensures RunOf([x]) == Extended(Run(x.direction, x.session, [], []), x)
  {
    assert [x][..0] == [];
  }

  /** One more item extends the newest run or starts one. */
  lemma RunsGrow(items: seq<Item>, x: Item)
    ensures var runs := RunsOf(Stretches(items));
            && (items != [] ==> runs != [] && Last(runs).session == Last(items).session
                                && Last(runs).direction == Last(items).direction)
            && RunsOf(Stretches(items + [x]))
               == if items != [] && SameRun(Last(items), x) then WithLast(runs, Extended(Last(runs), x))
                  else runs + [Extended(Run(x.direction, x.session, [], []), x)]
  {
    var cut := Stretches(items);
    StretchesGrow(items, x);
    FirstOfRun(x);
    RunsOfParts(cut, [x]);
    if items != [] {
      RunGrows(Last(cut), Last(items));
      if SameRun(Last(items), x) {
        RunsOfParts(cut, Last(cut) + [x]);
        RunGrows(Last(cut), x);
      }
    }
  }

  lemma GestureRuns(items: seq<Item>, st: Splitter, e: Event, x: Item)
    requires e.GestureFrame? && x.FrameItem? && x.frame == FrameOf(e) && x.direction == e.direction
    requires st.runs == RunsOf(Stretches(items)) && x.session == if st.idle then st.session + 1 else st.session
    requires items != [] ==> st.session == Last(items).session && (st.open <==> !st.idle)
    requires items == [] ==> !st.open
    ensures Advance(st, e).runs == RunsOf(Stretches(items + [x]))
  {
    RunsGrow(items, x);
    GestureExtends(st, e, x);
  }

  lemma GestureExtends(st: Splitter, e: Event, x: Item)
    requires e.GestureFrame? && x.FrameItem? && x.frame == FrameOf(e) && x.direction == e.direction
    requires x.session == if st.idle then st.session + 1 else st.session
    ensures Advance(st, e).runs
            == if Continues(st, e.direction) then WithLast(st.runs, Extended(Last(st.runs), x))
               else st.runs + [Extended(Run(x.direction, x.session, [], []), x)]
  {
    assert [] + [FrameOf(e)] == [FrameOf(e)];
  }

  lemma GestureFollows(before: seq<Event>, e: Event, st: Splitter)
    requires e.GestureFrame? && Follows(before, st)
    ensures Follows(before + [e], Advance(st, e))
  {
    var items := Items(before);
    assert (before + [e])[..|before|] == before;
    var x := Last(Items(before + [e]));
    assert Items(before + [e]) == items + [x];
    GestureRuns(items, st, e, x);
  }

  lemma RowExtends(st: Splitter, e: Event, session: nat, direction: int)
    requires e.RowVisibility? && st.open && st.runs != []
    ensures var x := RowItem(session, direction, Sample(e.phase, e.keys), e.collapsed);
            Advance(st, e).runs == WithLast(st.runs, Extended(Last(st.runs), x))
  {
  }

  lemma RowRuns(items: seq<Item>, st: Splitter, e: Event, x: Item)
    requires e.RowVisibility? && items != [] && st.open && st.runs == RunsOf(Stretches(items))
    requires x == RowItem(Last(items).session, Last(items).direction, Sample(e.phase, e.keys), e.collapsed)
    ensures Advance(st, e).runs == RunsOf(Stretches(items + [x]))
  {
    RunsGrow(items, x);
    RowExtends(st, e, x.session, x.direction);
  }

  lemma RowFollows(before: seq<Event>, e: Event, st: Splitter)
    requires e.RowVisibility? && Follows(before, st)
    ensures Follows(before + [e], Advance(st, e))
  {
    var items := Items(before);
    assert (before + [e])[..|before|] == before;
    if items != [] && st.open {
      var x := RowItem(Last(items).session, Last(items).direction, Sample(e.phase, e.keys), e.collapsed);
      assert Items(before + [e]) == items + [x];
      RowRuns(items, st, e, x);
    } else {
      assert Items(before + [e]) == items;
      RowIgnored(st, e);
    }
  }

  lemma RowIgnored(st: Splitter, e: Event)
    requires e.RowVisibility? && (!st.open || st.runs == [])
    ensures Advance(st, e) == st
  {
  }

  lemma OtherFollows(before: seq<Event>, e: Event, st: Splitter)
    requires (e.FramePresented? || e.OtherEvent?) && Follows(before, st)
    ensures Follows(before + [e], Advance(st, e))
  {
    assert (before + [e])[..|before|] == before;
  }

  lemma {:induction false} SplitterFollows(events: seq<Event>)
    ensures Follows(events, Split(events))
  {
    if events != [] {
      var before, e := events[..|events| - 1], Last(events);
      SplitterFollows(before);
      assert events == before + [e];
      match e
      case GestureFrame(_, _, _, _) => GestureFollows(before, e, Split(before));
      case RowVisibility(_, _, _) => RowFollows(before, e, Split(before));
      case _ => OtherFollows(before, e, Split(before));
    }
  }

  /** The splitter's runs are the trace's own: its items cut where the session or the direction changes. */
  lemma SplitterMeansTraceRuns(events: seq<Event>)
    ensures SplitRuns(events) == TraceRuns(events)
  {
    SplitterFollows(events);
  }

  // ---------- regrouping by session ----------

  function FramesOfSession(runs: seq<Run>, session: nat): seq<Frame> {
    if runs == [] then []
    else FramesOfSession(runs[..|runs| - 1], session)
         + if Last(runs).session == session then Last(runs).frames else []
  }

  function ScrollFrames(tagged: seq<Tagged>, session: nat): seq<Frame> {
    if tagged == [] then []
    else ScrollFrames(tagged[..|tagged| - 1], session)
         + if Last(tagged).session == session then [Last(tagged).frame] else []
  }

  lemma {:induction false} ScrollFramesConcat(a: seq<Tagged>, b: seq<Tagged>, session: nat)
    ensures ScrollFrames(a + b, session) == ScrollFrames(a, session) + ScrollFrames(b, session)
  {
    if b == [] {
      assert a + b == a;
    } else {
      ScrollFramesConcat(a, b[..|b| - 1], session);
      assert (a + b)[..|a + b| - 1] == a + b[..|b| - 1];
    }
  }

  lemma ScrollFramesAppend(tagged: seq<Tagged>, t: Tagged, session: nat)
    ensures ScrollFrames(tagged + [t], session)
            == ScrollFrames(tagged, session) + if t.session == session then [t.frame] else []
  {
    assert (tagged + [t])[..|tagged|] == tagged;
  }

  lemma TagFramesAppend(r: Run, f: Frame)
    ensures TagFrames(r.(frames := r.frames + [f])) == TagFrames(r) + [Tagged(r.session, r.direction, f)]
  {
  }

  /** The frames of a run are all of its own scroll, and none of another. */
  lemma {:induction false} ScrollFramesOfRun(r: Run, session: nat)
    ensures ScrollFrames(TagFrames(r), session) == if r.session == session then r.frames else []
    decreases |r.frames|
  {
    if r.frames == [] {
      assert TagFrames(r) == [];
    } else {
      var init, f := r.(frames := r.frames[..|r.frames| - 1]), Last(r.frames);
      ScrollFramesOfRun(init, session);
      TagFramesAppend(init, f);
      ScrollFramesAppend(TagFrames(init), Tagged(r.session, r.direction, f), session);
      assert r.frames == init.frames + [f];
    }
  }

  lemma {:induction false} RegroupFlatten(runs: seq<Run>, session: nat)
    ensures FramesOfSession(runs, session) == ScrollFrames(Flatten(runs), session)
  {
    if runs != [] {
      RegroupFlatten(runs[..|runs| - 1], session);
      var r := Last(runs);
      ScrollFramesConcat(Flatten(runs[..|runs| - 1]), TagFrames(r), session);
      ScrollFramesOfRun(r, session);
    }
  }

  lemma {:induction false} NamingKeepsFrames(runs: seq<Run>, named: seq<Run>, session: nat)
    requires |named| == |runs| && forall i | 0 <= i < |runs| :: named[i] == Named(runs[i])
    ensures FramesOfSession(named, session) == FramesOfSession(runs, session)
  {
    if runs != [] {
      NamingKeepsFrames(runs[..|runs| - 1], named[..|runs| - 1], session);
    }
  }

  /** Regrouping the runs by session undoes the direction split: it gives back each whole scroll. */
  lemma RegroupingUndoesTheSplit(events: seq<Event>, session: nat)
    ensures FramesOfSession(SplitRuns(events), session) == ScrollFrames(TaggedFrames(events), session)
  {
    var runs := Split(events).runs;
    RunsAreTheTrace(events);
    RegroupFlatten(runs, session);
    NamingKeepsFrames(runs, SplitRuns(events), session);
  }

  // ---------- what a frame and a direction are ----------

  /** A gesture frame enters with its own phase, offset and height, and no row counts yet. */
  lemma GestureMeans(events: seq<Event>, direction: int, phase: string, offset: real, height: real)
    ensures var tagged := TaggedFrames(events + [GestureFrame(direction, phase, offset, height)]);
            && tagged != [] && tagged[..|tagged| - 1] == TaggedFrames(events)
            && Last(tagged).direction == direction
            && Last(tagged).frame == Frame(phase, offset, height, Collapsed(None, None, None, None))
  {
    var e := GestureFrame(direction, phase, offset, height);
    assert (events + [e])[..|events|] == events;
  }

  /** A reported run differs from the one read only in its name for the direction. */
  lemma RunsAreNamed(events: seq<Event>, i: nat)
    requires i < |SplitRuns(events)|
    ensures SplitRuns(events)[i] == Named(Split(events).runs[i])
  {
  }

  /**
    A run keeps the direction the view reported. One without is upward when its offset fell by more
    than two pixels, downward when it rose by more, and else undirected; nothing else of it changes.
   */
  lemma DirectionMeans(r: Run)
    ensures var named := Named(r);
            && named.session == r.session && named.frames == r.frames && named.visibility == r.visibility
            && (r.direction != 0 ==> named.direction == r.direction)
            && (r.direction == 0 && |r.frames| < 2 ==> named.direction == 0)
            && (r.direction == 0 && |r.frames| >= 2 ==>
                  var first, last := r.frames[0].offset, Last(r.frames).offset;
                  named.direction == if last < first - 2.0 then 1 else if last > first + 2.0 then -1 else 0)
  {
  }
}
