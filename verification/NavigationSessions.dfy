/**
  Whole sessions of one window: tabs open and close, the caret moves and jumps, files are revisited,
  and nothing is edited. Every entry recorded on the way still says where it leads, so Back and
  Forward keep their promise in every state such a session reaches.
 */
module NavigationSessions {
  import opened Options
  import opened Workspaces
  import opened NavigationHistory
  import opened NavigationZipper

  /** `active` is the caret's location, None while no editor with a text is current. */
  datatype Session = Session(history: History, window: Workspace, active: Option<Location>)

  datatype Deed =
    | Drift(window: Workspace, active: Option<Location>)
    | Focus(window: Workspace, active: Option<Location>)
    | Leap(window: Workspace, landed: Location)
    | Mark
    | Move(back: bool, naps: set<EditorId>)
    | Destroyed(id: EditorId)

  /** No shown file has unsaved text, and each is on disk as shown. */
  ghost predicate Quiet(w: Workspace) {
    Valid(w) && forall id | id in w.docs && w.docs[id].path != "" ::
      !w.docs[id].modified && DocInSync(w.files, w.docs[id])
  }

  /**
    Anything that changes no text: tabs are opened with new numbers, closed, reordered, hibernated or
    restored, and the split view comes and goes.
   */
  ghost predicate Evolves(w: Workspace, w': Workspace) {
    && Quiet(w') && w'.files == w.files && w.next <= w'.next
    && (forall id | id in w'.docs && id < w.next ::
          id in w.docs && w'.docs[id].path == w.docs[id].path
          && (w.docs[id].path == "" ==> w'.docs[id].text == w.docs[id].text))
  }

  ghost predicate Possible(s: Session, d: Deed) {
    match d
    case Drift(w, active) => Evolves(s.window, w) && (active.Some? ==> Current(w, active.value))
    case Focus(w, active) => Evolves(s.window, w) && (active.Some? ==> Current(w, active.value))
    case Leap(w, landed) => Evolves(s.window, w) && Current(w, landed)
    case Mark => true
    case Move(_, _) => true
    case Destroyed(id) =>
      && id !in s.window.docs && !(s.window.split.Some? && s.window.split.value.view == id)
      && (s.active.Some? ==> s.active.value.editor != Some(id))
  }

  function Marked(s: Session): History {
    if s.active.Some? then Push(s.history, s.active.value) else s.history
  }

  function MoveOnce(s: Session, back: bool, naps: set<EditorId>): Session {
    var (h, r) := Navigate(s.history, back, s.window, s.active, naps);
    Session(h, r.workspace, r.active)
  }

  /**
    A change of tab or caret is tracked; moving the focus between a tab and the split view, or changing
    the window with the guard up, is not. A jump (`openSearchMatch` and its kin) records where it leaves
    from and moves with the guard up; one that lands nowhere has only recorded. An impossible deed is none.
   */
  ghost function Do(s: Session, d: Deed): Session {
    if !Possible(s, d) then s
    else match d
      case Drift(w, active) => Session(Track(s.history, active), w, active)
      case Focus(w, active) => s.(window := w, active := active)
      case Leap(w, landed) => Session(Marked(s).(last := landed), w, Some(landed))
      case Mark => s.(history := Marked(s))
      case Move(back, naps) => MoveOnce(s, back, naps)
      case Destroyed(id) => s.(history := Forget(s.history, id))
  }

  ghost function DoAll(s: Session, deeds: seq<Deed>): Session {
    if deeds == [] then s else Do(DoAll(s, deeds[..|deeds| - 1]), deeds[|deeds| - 1])
  }

  /** A session starts with no history in any window whose files are as shown. */
  ghost predicate Starts(s: Session) {
    s.history == Init() && Quiet(s.window) && (s.active.Some? ==> Current(s.window, s.active.value))
  }

  // ---------- what recorded entries say ----------

  predicate Within(text: Text, l: Location) {
    0 <= l.position <= |text| && l.line == LineOf(text, l.position)
  }

  /** The entry names a line of its file, or of the document without a file its tab holds. */
  predicate Recorded(w: Workspace, l: Location) {
    && Known(w, l)
    && (l.editor.Some? && l.editor.value in w.docs ==> w.docs[l.editor.value].path == l.filePath)
    && (if l.filePath != "" then var text := Readable(w.files, l.filePath); text.Some? && Within(text.value, l)
        else l.editor.Some? && l.editor.value in w.docs ==> Within(w.docs[l.editor.value].text, l))
  }

  lemma RecordedIsUnchanged(w: Workspace, l: Location)
    requires Quiet(w) && Recorded(w, l) && IsAvailable(w, l)
    ensures Unchanged(w, l)
  {
  }

  lemma CurrentIsRecorded(w: Workspace, a: Location)
    requires Quiet(w) && Current(w, a)
    ensures Recorded(w, a)
  {
  }

  lemma EvolvingKeepsRecorded(w: Workspace, w': Workspace, l: Location)
    requires Quiet(w) && Evolves(w, w') && Recorded(w, l)
    ensures Recorded(w', l)
  {
  }

  lemma WokenEvolves(w: Workspace, id: EditorId)
    requires Quiet(w) && id in w.docs
    ensures Evolves(w, WithDoc(w, id, Woken(w.files, w.docs[id])))
    ensures Evolves(w, WithDoc(w, id, Reread(w.files, w.docs[id])))
  {
    WithDocIsValid(w, id);
  }

  lemma RestedEvolves(w: Workspace, active: EditorId, naps: set<EditorId>)
    requires Quiet(w)
    ensures Evolves(w, Rested(w, active, naps))
  {
    RestedIsValid(w, active, naps);
  }

  lemma WithTabEvolves(w: Workspace, path: string, text: Text)
    requires Quiet(w) && Readable(w.files, path) == Some(text)
    ensures Evolves(w, WithTab(w, path, text))
  {
    WithTabIsValid(w, path, text);
  }

  lemma EvolvesTwice(a: Workspace, b: Workspace, c: Workspace)
    requires Evolves(a, b) && Evolves(b, c)
    ensures Evolves(a, c)
  {
  }

  lemma ShownEvolves(w: Workspace, w': Workspace, id: EditorId, position: int, naps: set<EditorId>)
    requires Evolves(w, w') && id in w'.docs
    ensures var r := Shown(w', id, position, naps);
            Evolves(w, r.workspace) && (r.active.Some? ==> Current(r.workspace, r.active.value))
  {
    RestedEvolves(w', id, naps);
    EvolvesTwice(w', w', Rested(w', id, naps));
    EvolvesTwice(w, w', Rested(w', id, naps));
  }

  lemma RestoreEvolves(w: Workspace, l: Location, naps: set<EditorId>, active: Option<Location>)
    requires Quiet(w) && (active.Some? ==> Current(w, active.value))
    ensures var r := Restore(w, l, naps, active);
            && Evolves(w, r.workspace) && (r.active.Some? ==> Current(r.workspace, r.active.value))
            && (r.landed.Some? ==> r.landed == r.active)
  {
    var aim := AimOf(w, l);
    if aim.InTab? || aim.Reopen? {
      TabEvolves(w, l, naps, active);
    } else if aim.Open? {
      OpenEvolves(w, l, naps, active);
    } else {
      StillEvolves(w, l, naps, active);
    }
  }

  lemma TabEvolves(w: Workspace, l: Location, naps: set<EditorId>, active: Option<Location>)
    requires Quiet(w) && (AimOf(w, l).InTab? || AimOf(w, l).Reopen?)
    ensures var r := Restore(w, l, naps, active);
            && Evolves(w, r.workspace) && (r.active.Some? ==> Current(r.workspace, r.active.value))
            && (r.landed.Some? ==> r.landed == r.active)
  {
    InTabEvolves(w, l, AimOf(w, l).id, naps);
  }

  lemma StillEvolves(w: Workspace, l: Location, naps: set<EditorId>, active: Option<Location>)
    requires Quiet(w) && (active.Some? ==> Current(w, active.value))
    requires AimOf(w, l).InSplit? || AimOf(w, l).Nowhere?
    ensures var r := Restore(w, l, naps, active);
            && Evolves(w, r.workspace) && (r.active.Some? ==> Current(r.workspace, r.active.value))
            && (r.landed.Some? ==> r.landed == r.active)
  {
    if AimOf(w, l).InSplit? {
      SplitEvolves(w, l);
    }
  }

  lemma SplitEvolves(w: Workspace, l: Location)
    requires Quiet(w) && SplitShows(w, l)
    ensures Evolves(w, w) && Current(w, LocationIn(l.editor.value, w.docs[w.split.value.source], l.position))
  {
  }

  lemma OpenEvolves(w: Workspace, l: Location, naps: set<EditorId>, active: Option<Location>)
    requires Quiet(w) && (active.Some? ==> Current(w, active.value)) && AimOf(w, l).Open?
    ensures var r := Restore(w, l, naps, active);
            && Evolves(w, r.workspace) && (r.active.Some? ==> Current(r.workspace, r.active.value))
            && (r.landed.Some? ==> r.landed == r.active)
  {
    var text := Readable(w.files, l.filePath);
    if text.Some? {
      WithTabEvolves(w, l.filePath, text.value);
      ShownEvolves(w, WithTab(w, l.filePath, text.value), w.next, l.position, naps);
    }
  }

  lemma InTabEvolves(w: Workspace, l: Location, id: EditorId, naps: set<EditorId>)
    requires Quiet(w) && id in w.docs
    ensures var r := Shown(WithDoc(w, id, Woken(w.files, w.docs[id])), id, l.position, naps);
            Evolves(w, r.workspace) && (r.active.Some? ==> Current(r.workspace, r.active.value))
    ensures var r := Shown(WithDoc(w, id, Reread(w.files, w.docs[id])), id, l.position, naps);
            Evolves(w, r.workspace) && (r.active.Some? ==> Current(r.workspace, r.active.value))
  {
    WokenEvolves(w, id);
    ShownEvolves(w, WithDoc(w, id, Woken(w.files, w.docs[id])), id, l.position, naps);
    ShownEvolves(w, WithDoc(w, id, Reread(w.files, w.docs[id])), id, l.position, naps);
  }

  // ---------- the invariant ----------

  predicate AllRecorded(w: Workspace, ls: seq<Location>) {
    forall i {:trigger Recorded(w, ls[i])} | 0 <= i < |ls| :: Recorded(w, ls[i])
  }

  ghost predicate Inv(s: Session) {
    && Quiet(s.window) && (s.active.Some? ==> Current(s.window, s.active.value))
    && AllRecorded(s.window, s.history.back) && AllRecorded(s.window, s.history.forward)
    && Recorded(s.window, s.history.last)
  }

  lemma EvolvingKeepsAll(w: Workspace, w': Workspace, h: History)
    requires Quiet(w) && Evolves(w, w')
    requires AllRecorded(w, h.back) && AllRecorded(w, h.forward) && Recorded(w, h.last)
    ensures AllRecorded(w', h.back) && AllRecorded(w', h.forward) && Recorded(w', h.last)
  {
    forall l | Recorded(w, l)
      ensures Recorded(w', l)
    {
      EvolvingKeepsRecorded(w, w', l);
    }
    assert forall i | 0 <= i < |h.back| :: Recorded(w, h.back[i]);
    assert forall i | 0 <= i < |h.forward| :: Recorded(w, h.forward[i]);
  }

  lemma RecordedParts(w: Workspace, ls: seq<Location>, some: seq<Location>)
    requires AllRecorded(w, ls) && forall i | 0 <= i < |some| :: some[i] in ls
    ensures AllRecorded(w, some)
  {
    forall i | 0 <= i < |some|
      ensures Recorded(w, some[i])
    {
      var j :| 0 <= j < |ls| && ls[j] == some[i];
      assert Recorded(w, ls[j]);
    }
  }

  lemma RecordedAppend(w: Workspace, ls: seq<Location>, l: Location)
    requires AllRecorded(w, ls) && Recorded(w, l)
    ensures AllRecorded(w, ls + [l])
  {
    forall i | 0 <= i < |ls + [l]|
      ensures Recorded(w, (ls + [l])[i])
    {
      assert i < |ls| ==> Recorded(w, ls[i]);
    }
  }

  lemma PushKeepsRecorded(w: Workspace, h: History, l: Location)
    requires AllRecorded(w, h.back) && AllRecorded(w, h.forward) && Recorded(w, l)
    ensures AllRecorded(w, Push(h, l).back) && AllRecorded(w, Push(h, l).forward)
  {
    RecordedAppend(w, h.back, l);
    RecordedParts(w, h.back + [l], Trimmed(h.back + [l]));
  }

  lemma MarkKeepsRecorded(s: Session)
    requires Inv(s)
    ensures AllRecorded(s.window, Marked(s).back) && AllRecorded(s.window, Marked(s).forward)
    ensures Marked(s).last == s.history.last
  {
    if s.active.Some? {
      CurrentIsRecorded(s.window, s.active.value);
      PushKeepsRecorded(s.window, s.history, s.active.value);
    }
  }

  lemma ForgetKeepsRecorded(w: Workspace, ls: seq<Location>, id: EditorId)
    requires AllRecorded(w, ls)
    ensures AllRecorded(w, Forgotten(ls, id))
  {
    forall i | 0 <= i < |ls|
      ensures Recorded(w, Forgotten(ls, id)[i])
    {
      assert Recorded(w, ls[i]);
    }
  }

  lemma MoveKeepsInv(s: Session, back: bool, naps: set<EditorId>)
    requires Inv(s)
    ensures Inv(MoveOnce(s, back, naps))
  {
    var sides := Facing(s.history, back);
    var live := Live(s.window, sides.ahead);
    LiveIsNearest(s.window, sides.ahead);
    if live != [] {
      var target := live[|live| - 1];
      var r := Restore(s.window, target, naps, s.active);
      RestoreEvolves(s.window, target, naps, s.active);
      RecordedParts(s.window, sides.ahead, live[..|live| - 1]);
      if s.active.Some? {
        CurrentIsRecorded(s.window, s.active.value);
        RecordedAppend(s.window, sides.behind, s.active.value);
      }
      var hopped := WithSides(s.history, back, Hop(sides, s.window, s.active).0);
      EvolvingKeepsAll(s.window, r.workspace, hopped);
      if r.landed.Some? {
        CurrentIsRecorded(r.workspace, r.landed.value);
      }
    }
  }

  lemma DoKeepsInv(s: Session, d: Deed)
    requires Inv(s)
    ensures Inv(Do(s, d))
  {
    if Possible(s, d) {
      match d
      case Drift(w, active) =>
        EvolvingKeepsAll(s.window, w, s.history);
        PushKeepsRecorded(w, s.history, s.history.last);
        if active.Some? { CurrentIsRecorded(w, active.value); }
      case Focus(w, _) => EvolvingKeepsAll(s.window, w, s.history);
      case Leap(w, landed) =>
        MarkKeepsRecorded(s);
        EvolvingKeepsAll(s.window, w, Marked(s));
        CurrentIsRecorded(w, landed);
      case Mark => MarkKeepsRecorded(s);
      case Move(back, naps) => MoveKeepsInv(s, back, naps);
      case Destroyed(id) =>
        ForgetKeepsRecorded(s.window, s.history.back, id);
        ForgetKeepsRecorded(s.window, s.history.forward, id);
    }
  }

  /** In every state of a session each recorded entry, if it is available, leads to the line it names. */
  lemma {:induction false} EntriesStayTrue(start: Session, deeds: seq<Deed>)
    requires Starts(start)
    ensures var s := DoAll(start, deeds);
            && Inv(s)
            && (forall l | l in s.history.back + s.history.forward && IsAvailable(s.window, l) ::
                  Unchanged(s.window, l))
    decreases |deeds|
  {
    if deeds != [] {
      EntriesStayTrue(start, deeds[..|deeds| - 1]);
      DoKeepsInv(DoAll(start, deeds[..|deeds| - 1]), deeds[|deeds| - 1]);
    }
    var s := DoAll(start, deeds);
    forall l | l in s.history.back + s.history.forward && IsAvailable(s.window, l)
      ensures Unchanged(s.window, l)
    {
      RecordedSomewhere(s, l);
      RecordedIsUnchanged(s.window, l);
    }
  }

  lemma RecordedSomewhere(s: Session, l: Location)
    requires AllRecorded(s.window, s.history.back) && AllRecorded(s.window, s.history.forward)
    requires l in s.history.back + s.history.forward
    ensures Recorded(s.window, l)
  {
    if l in s.history.back {
      var i :| 0 <= i < |s.history.back| && s.history.back[i] == l;
    } else {
      var i :| 0 <= i < |s.history.forward| && s.history.forward[i] == l;
    }
  }

  // ---------- Back and Forward ----------

  function ZipperOf(s: Session, back: bool): Zipper {
    Zipper(Facing(s.history, back), s.active, s.window)
  }

  /** Back, or Forward, once for each choice the tab policy makes. */
  function MoveTimes(s: Session, back: bool, naps: seq<set<EditorId>>): Session
    decreases |naps|
  {
    if naps == [] then s else MoveTimes(MoveOnce(s, back, naps[0]), back, naps[1..])
  }

  /** `navigateHistory` is the zipper's move in either direction. */
  lemma {:induction false} MovesAdvance(s: Session, back: bool, naps: seq<set<EditorId>>)
    ensures ZipperOf(MoveTimes(s, back, naps), back) == Advances(ZipperOf(s, back), naps)
    ensures ZipperOf(MoveTimes(s, back, naps), !back) == Flip(Advances(ZipperOf(s, back), naps))
    decreases |naps|
  {
    if naps != [] {
      assert ZipperOf(MoveOnce(s, back, naps[0]), back) == Advance(ZipperOf(s, back), naps[0]);
      MovesAdvance(MoveOnce(s, back, naps[0]), back, naps[1..]);
    }
  }

  lemma InvIsSound(s: Session, back: bool)
    requires Inv(s) && s.active.Some? && IsAvailable(s.window, s.active.value)
    ensures Sound(ZipperOf(s, back))
  {
    assert forall i | 0 <= i < |s.history.back| :: Recorded(s.window, s.history.back[i]);
    assert forall i | 0 <= i < |s.history.forward| :: Recorded(s.window, s.history.forward[i]);
  }

  lemma {:induction false} InvIsReady(w: Workspace, ahead: seq<Location>, n: nat)
    requires Quiet(w) && AllRecorded(w, ahead) && CanVisit(w, ahead, n)
    ensures Ready(w, ahead, n)
    decreases n
  {
    if n > 0 {
      BeyondIsPrefix(w, ahead);
      RecordedParts(w, ahead, Beyond(w, ahead));
      RecordedParts(w, ahead, [Nearest(w, ahead).value]);
      assert Recorded(w, [Nearest(w, ahead).value][0]);
      RecordedIsUnchanged(w, Nearest(w, ahead).value);
      InvIsReady(w, Beyond(w, ahead), n - 1);
    }
  }

  /** A caller can see before the moves whether they can be undone. */
  predicate CanReturn(s: Session, back: bool, n: nat)
    requires s.active.Some?
  {
    && (n == 0 || IsAvailable(s.window, s.active.value))
    && DiscardsNone(s.window, Visited(s.window, Facing(s.history, back).ahead, n))
  }

  lemma InvReturns(s: Session, back: bool, out: seq<set<EditorId>>, home: seq<set<EditorId>>)
    requires Inv(s) && s.active.Some? && |out| == |home| && CanVisit(s.window, Facing(s.history, back).ahead, |out|)
    ensures var z := ZipperOf(s, back);
            Shows(Flip(Advances(Flip(Advances(z, out)), home)), z.sides.behind, s.active.value,
                  Thinned(s.window, z.sides.ahead, |out|))
            <==> CanReturn(s, back, |out|)
  {
    var z := ZipperOf(s, back);
    assert AllRecorded(s.window, z.sides.ahead);
    InvIsReady(s.window, z.sides.ahead, |out|);
    if IsAvailable(s.window, s.active.value) {
      InvIsSound(s, back);
      ThereAndBackAgain(z, out, home);
    } else if out != [] {
      UnavailableCaretIsLeft(z, out, home);
    }
  }

  /**
    In every state a session reaches, for every `n` that the available entries allow: `n` uses of Back
    and then `n` of Forward, or the reverse, end at the same place between the same places, with
    exactly the unavailable entries passed on the way gone from the history - if and only if the caret
    is at a place that can be returned to and no file on the way opens by replacing a pristine document.
   */
  lemma {:induction false} BackThenForward(start: Session, deeds: seq<Deed>, back: bool,
                                           out: seq<set<EditorId>>, home: seq<set<EditorId>>)
    requires Starts(start) && |out| == |home|
    ensures var s := DoAll(start, deeds);
            var sides := Facing(s.history, back);
            s.active.Some? && CanVisit(s.window, sides.ahead, |out|) ==>
              (Shows(ZipperOf(MoveTimes(MoveTimes(s, back, out), !back, home), back),
                     sides.behind, s.active.value, Thinned(s.window, sides.ahead, |out|))
               <==> CanReturn(s, back, |out|))
  {
    var s := DoAll(start, deeds);
    EntriesStayTrue(start, deeds);
    if s.active.Some? && CanVisit(s.window, Facing(s.history, back).ahead, |out|) {
      InvReturns(s, back, out, home);
      MovesAdvance(s, back, out);
      MovesAdvance(MoveTimes(s, back, out), !back, home);
    }
  }

  /**
    The exception happens: close the only tab, and the new document it leaves is gone after Back has
    reopened the file, so Forward stays where it is.
   */
  lemma ReplacedDocumentIsForgotten()
    ensures exists start, deeds, nap ::
              var s := DoAll(start, deeds);
              var there := MoveOnce(s, true, nap);
              && Starts(start) && s.active.Some? && IsAvailable(s.window, s.active.value)
              && CanVisit(s.window, s.history.back, 1)
              && MoveOnce(there, false, nap).active == there.active != s.active
  {
    var start, deeds, s := CloseTheOnlyTab();
    var inFile := s.history.back[0];
    assert CanVisit(s.window, [inFile], 1) by {
      assert Nearest(s.window, [inFile]) == Some(inFile);
    }
    FileReplacesDocument(s, inFile, s.history.last);
  }

  lemma CloseTheOnlyTab() returns (start: Session, deeds: seq<Deed>, s: Session)
    ensures Starts(start) && DoAll(start, deeds) == s
    ensures var inFile, here := LocationIn(0, FileWindow().docs[0], 2), LocationIn(1, NewWindow().docs[1], 0);
            s == Session(History([inFile], [], here, false), NewWindow(), Some(here))
  {
    var w0, w1 := FileWindow(), NewWindow();
    var inFile, here := LocationIn(0, w0.docs[0], 2), LocationIn(1, w1.docs[1], 0);
    var open, close := Drift(w0, Some(inFile)), Drift(w1, Some(here));
    start := Session(Init(), w0, None);
    var shown := Session(Init().(last := inFile), w0, Some(inFile));
    s := Session(History([inFile], [], here, false), w1, Some(here));
    ConcreteWindows();
    DriftTracks(start, w0, inFile);
    DriftTracks(shown, w1, here);
    OneMoreDeed(start, [], open);
    OneMoreDeed(start, [open], close);
    deeds := [open] + [close];
    assert [] + [open] == [open];
  }

  lemma ConcreteWindows()
    ensures Quiet(FileWindow()) && Evolves(FileWindow(), FileWindow()) && Evolves(FileWindow(), NewWindow())
    ensures Current(FileWindow(), LocationIn(0, FileWindow().docs[0], 2))
    ensures Current(NewWindow(), LocationIn(1, NewWindow().docs[1], 0))
  {
  }

  lemma DriftTracks(s: Session, w: Workspace, a: Location)
    requires Evolves(s.window, w) && Current(w, a)
    ensures Do(s, Drift(w, Some(a))) == Session(Track(s.history, Some(a)), w, Some(a))
  {
    assert Possible(s, Drift(w, Some(a)));
  }

  lemma OneMoreDeed(start: Session, deeds: seq<Deed>, d: Deed)
    ensures DoAll(start, deeds + [d]) == Do(DoAll(start, deeds), d)
  {
    assert (deeds + [d])[..|deeds|] == deeds;
  }

  /** A window on the one file there is, and the same window once its tab is closed. */
  function FileWindow(): Workspace {
    Workspace(map[0 := Doc("a", "one", false, false)], [0], 0, None, map["a" := Some("one")], 1)
  }

  function NewWindow(): Workspace {
    Workspace(map[1 := Doc("", "", false, false)], [1], 0, None, map["a" := Some("one")], 2)
  }

  lemma FileReplacesDocument(s: Session, inFile: Location, here: Location)
    requires s.history == History([inFile], [], here, false) && s.active == Some(here)
    requires Pristine(s.window) && s.window.docs.Keys == {1} && s.window.next == 2 && s.window.split.None?
    requires here.editor == Some(1) && here.filePath == "" && inFile.editor == Some(0) && inFile.filePath != ""
    requires Readable(s.window.files, inFile.filePath).Some?
    ensures var there := MoveOnce(s, true, {}); MoveOnce(there, false, {}).active == there.active != s.active
  {
    var there := MoveOnce(s, true, {});
    BackReopens(s, inFile, here);
    NothingAhead(there, here);
  }

  lemma BackReopens(s: Session, inFile: Location, here: Location)
    requires s.history == History([inFile], [], here, false) && s.active == Some(here)
    requires Pristine(s.window) && s.window.docs.Keys == {1} && s.window.next == 2 && s.window.split.None?
    requires here.editor == Some(1) && inFile.editor == Some(0) && inFile.filePath != ""
    requires Readable(s.window.files, inFile.filePath).Some?
    ensures var there := MoveOnce(s, true, {});
            && there.window.docs.Keys == {2} && there.window.split.None? && there.history.forward == [here]
            && there.active.Some? && there.active.value.editor == Some(2)
  {
    var w := s.window;
    assert w.order[0] in w.docs;
    NoTabShows(w.docs, w.order, inFile.filePath);
    assert AimOf(w, inFile) == Open;
    assert Live(w, [inFile]) == [inFile];
  }

  lemma NothingAhead(s: Session, l: Location)
    requires s.history.forward == [l] && !IsAvailable(s.window, l)
    ensures MoveOnce(s, false, {}).active == s.active
  {
    assert Live(s.window, [l][..0]) == [];
    assert Live(s.window, [l]) == [];
  }

  /**
    In every session state: while there is an available entry ahead, a move leaves the caret's own
    place as the last location, so the caret event that follows it records nothing; a move without
    one leaves the last location as it was.
   */
  lemma {:induction false} LandingRecordsNothing(start: Session, deeds: seq<Deed>, back: bool, naps: set<EditorId>)
    requires Starts(start)
    ensures var s := DoAll(start, deeds);
            var ahead := if back then s.history.back else s.history.forward;
            var s' := MoveOnce(s, back, naps);
            && ((exists l | l in ahead :: IsAvailable(s.window, l)) ==>
                  s'.active == Some(s'.history.last) && Track(s'.history, s'.active) == s'.history)
            && ((forall l | l in ahead :: !IsAvailable(s.window, l)) ==>
                  s'.active == s.active && s'.history.last == s.history.last)
  {
    var s := DoAll(start, deeds);
    var ahead := Facing(s.history, back).ahead;
    var live := Live(s.window, ahead);
    EntriesStayTrue(start, deeds);
    LiveIsNearest(s.window, ahead);
    if live != [] {
      var target := live[|live| - 1];
      assert target in ahead && target in s.history.back + s.history.forward;
      assert Unchanged(s.window, target);
      LandsOnTheCaret(s, back, naps, target);
    }
  }

  lemma LandsOnTheCaret(s: Session, back: bool, naps: set<EditorId>, target: Location)
    requires Valid(s.window) && Unchanged(s.window, target)
    requires Hop(Facing(s.history, back), s.window, s.active).1 == Some(target)
    ensures var s' := MoveOnce(s, back, naps);
            s'.active == Some(s'.history.last) && Track(s'.history, s'.active) == s'.history
  {
    LandingIsCurrent(s.window, target, naps, s.active);
    TracksNothing(MoveOnce(s, back, naps).history);
  }

  lemma TracksNothing(h: History)
    ensures Track(h, Some(h.last)) == h
  {
  }
}
