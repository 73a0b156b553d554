/** Back/forward caret history: two bounded stacks around the active location. */
module NavigationHistory {
  import opened Options
  import opened Workspaces

  const MAXIMUM_HISTORY: nat := 50
  const JUMP_LINES: nat := 10

  datatype History = History(back: seq<Location>, forward: seq<Location>, last: Location, restoring: bool)

  // ---------- what the handlers do ----------

  predicate SameEntry(a: Location, b: Location) {
    a.editor == b.editor && a.filePath == b.filePath && a.line == b.line
  }

  function Trimmed(back: seq<Location>): seq<Location> {
    if |back| > MAXIMUM_HISTORY then back[|back| - MAXIMUM_HISTORY..] else back
  }

  function Push(h: History, l: Location): History {
    if l.editor.None? && l.filePath == "" then h
    else if h.back != [] && SameEntry(h.back[|h.back| - 1], l) then h
    else h.(back := Trimmed(h.back + [l]), forward := [])
  }

  function Distance(a: int, b: int): nat {
    if a < b then b - a else a - b
  }

  /** `active` is the location of an active editor that is not hibernated. */
  function Track(h: History, active: Option<Location>): History {
    if h.restoring || active.None? then h
    else
      var current := active.value;
      var hasPrevious := h.last.editor.Some? || h.last.filePath != "";
      var switched := h.last.editor != current.editor;
      var jumped := !switched && Distance(current.line, h.last.line) >= JUMP_LINES;
      var pushed := if hasPrevious && (switched || jumped) then Push(h, h.last) else h;
      pushed.(last := current)
  }

  /** The entries left after dropping unavailable ones from the top, the first available on top. */
  function Live(w: Workspace, source: seq<Location>): (live: seq<Location>)
    ensures |live| <= |source|
  {
    if source == [] || IsAvailable(w, source[|source| - 1]) then source
    else Live(w, source[..|source| - 1])
  }

  lemma {:induction false} LiveIsNearest(w: Workspace, source: seq<Location>)
    ensures var live := Live(w, source);
            && live == source[..|live|]
            && (live != [] ==> IsAvailable(w, live[|live| - 1]))
            && (forall i | |live| <= i < |source| :: !IsAvailable(w, source[i]))
  {
    if source != [] && !IsAvailable(w, source[|source| - 1]) {
      var rest := source[..|source| - 1];
      LiveIsNearest(w, rest);
      assert forall i | 0 <= i < |rest| :: rest[i] == source[i];
    }
  }

  /** The history seen from the caret: the stack it moves into and the one it leaves behind. */
  datatype Sides = Sides(ahead: seq<Location>, behind: seq<Location>)

  function Facing(h: History, back: bool): Sides {
    if back then Sides(h.back, h.forward) else Sides(h.forward, h.back)
  }

  function WithSides(h: History, back: bool, s: Sides): History {
    if back then h.(back := s.ahead, forward := s.behind) else h.(forward := s.ahead, back := s.behind)
  }

  /** Takes the nearest available entry ahead, and leaves the active location behind. */
  function Hop(s: Sides, w: Workspace, active: Option<Location>): (Sides, Option<Location>) {
    var live := Live(w, s.ahead);
    if live == [] then (s.(ahead := []), None)
    else
      var behind := if active.Some? then s.behind + [active.value] else s.behind;
      (Sides(live[..|live| - 1], behind), Some(live[|live| - 1]))
  }

  /** The history and the window after Back or Forward; `active` is None without a resident editor. */
  function Navigate(h: History, back: bool, w: Workspace, active: Option<Location>, naps: set<EditorId>)
    : (History, Outcome)
  {
    var (sides, target) := Hop(Facing(h, back), w, active);
    var moved := WithSides(h, back, sides);
    if target.None? then (moved, Outcome(w, None, active))
    else
      var r := Restore(w, target.value, naps, active);
      (if r.landed.Some? then moved.(last := r.landed.value) else moved, r)
  }

  class NavigationHistory {
    var back: seq<Location>
    var forward: seq<Location>
    var last: Location
    var restoring: bool

    ghost function View(): History
      reads this
    {
      History(back, forward, last, restoring)
    }

    constructor ()
      ensures View() == Init()
    {
      back, forward, last, restoring := [], [], NOWHERE, false;
    }

    method TrackNavigation(active: Option<Location>)
      modifies this
      ensures View() == Track(old(View()), active)
    {
      if restoring || active.None? {
        return;
      }
      var current := active.value;
      if last.editor.Some? || last.filePath != "" {
        var switched := last.editor != current.editor;
        var jumped := !switched && Distance(current.line, last.line) >= JUMP_LINES;
        if switched || jumped {
          PushNavigationLocation(last);
        }
      }
      last := current;
    }

    method PushNavigationLocation(l: Location)
      modifies this`back, this`forward
      ensures View() == Push(old(View()), l)
      ensures !Skipped(old(back), l) ==> IsNewest(back, old(back) + [l]) && forward == []
      ensures Skipped(old(back), l) ==> back == old(back) && forward == old(forward)
    {
      PushMeans(View(), l);
      if l.editor.None? && l.filePath == "" {
        return;
      }
      if back != [] {
        var top := back[|back| - 1];
        if top.editor == l.editor && top.filePath == l.filePath && top.line == l.line {
          return;
        }
      }
      var entries := back + [l];
      ghost var full, dropped := entries, 0;
      while |entries| > MAXIMUM_HISTORY
        invariant dropped <= |full| && entries == full[dropped..]
        invariant dropped == 0 || |entries| >= MAXIMUM_HISTORY
      {
        entries := entries[1..];
        dropped := dropped + 1;
      }
      back, forward := entries, [];
    }

    /** `signals` are the caret events that showing the target fires while the guard is up. */
    method RestoreLocation(l: Location, w: Workspace, naps: set<EditorId>, active: Option<Location>,
                           signals: seq<Option<Location>>)
      returns (outcome: Outcome)
      modifies this
      ensures outcome == Restore(w, l, naps, active)
      ensures View() == old(View()).(restoring := false,
                                     last := if outcome.landed.Some? then outcome.landed.value else old(last))
    {
      restoring := true;
      for i := 0 to |signals|
        invariant View() == old(View()).(restoring := true)
      {
        TrackNavigation(signals[i]);
      }
      outcome := Restore(w, l, naps, active);
      if outcome.landed.Some? {
        last := outcome.landed.value;
      }
      restoring := false;
    }

    method NavigateHistory(goBack: bool, w: Workspace, active: Option<Location>,
                           naps: set<EditorId>, signals: seq<Option<Location>>)
      returns (outcome: Outcome)
      requires !restoring
      modifies this
      ensures (View(), outcome) == Navigate(old(View()), goBack, w, active, naps)
    {
      var source := if goBack then back else forward;
      var destination := if goBack then forward else back;
      var found;
      source, found := TakeAvailable(source, w);
      if found.None? {
        PutStacks(goBack, source, destination);
        return Outcome(w, None, active);
      }
      if active.Some? {
        destination := destination + [active.value];
      }
      PutStacks(goBack, source, destination);
      outcome := RestoreLocation(found.value, w, naps, active, signals);
    }

    /** The source updates the two stacks through references. */
    method PutStacks(goBack: bool, source: seq<Location>, destination: seq<Location>)
      modifies this`back, this`forward
      ensures View() == WithSides(old(View()), goBack, Sides(source, destination))
    {
      if goBack {
        back, forward := source, destination;
      } else {
        back, forward := destination, source;
      }
    }

    /** Takes entries off the top until one is available; the skipped ones are gone. */
    static method TakeAvailable(source: seq<Location>, w: Workspace)
      returns (rest: seq<Location>, found: Option<Location>)
      ensures var live := Live(w, source);
              if live == [] then rest == [] && found == None
              else rest == live[..|live| - 1] && found == Some(live[|live| - 1])
    {
      rest := source;
      while rest != []
        invariant Live(w, rest) == Live(w, source)
      {
        var target := rest[|rest| - 1];
        if IsAvailable(w, target) {
          return rest[..|rest| - 1], Some(target);
        }
        rest := rest[..|rest| - 1];
      }
      found := None;
    }

    /** Destroying an editor clears the guarded pointers to it. */
    method EditorDestroyed(id: EditorId)
      modifies this
      ensures View() == Forget(old(View()), id)
    {
      back := Forgotten(back, id);
      forward := Forgotten(forward, id);
      last := ForgetIn(last, id);
    }
  }

  function ForgetIn(l: Location, id: EditorId): Location {
    if l.editor == Some(id) then l.(editor := None) else l
  }

  function Forgotten(ls: seq<Location>, id: EditorId): (r: seq<Location>)
    ensures |r| == |ls|
  {
    seq(|ls|, i requires 0 <= i < |ls| => ForgetIn(ls[i], id))
  }

  function Forget(h: History, id: EditorId): History {
    h.(back := Forgotten(h.back, id), forward := Forgotten(h.forward, id), last := ForgetIn(h.last, id))
  }

  // ---------- the bound ----------

  function Init(): History {
    History([], [], NOWHERE, false)
  }

  datatype Action =
    | CaretMoves(active: Option<Location>)
    | Jump(from: Option<Location>, landed: Location)
    | Go(back: bool, w: Workspace, active: Option<Location>, naps: set<EditorId>)
    | Destroy(id: EditorId)

  /** A jump records where it leaves from and moves with the guard up (`openSearchMatch` and its kin). */
  function Step(h: History, a: Action): History {
    match a
    case CaretMoves(active) => Track(h, active)
    case Jump(from, landed) => (if from.Some? then Push(h, from.value) else h).(last := landed)
    case Go(back, w, active, naps) => Navigate(h, back, w, active, naps).0
    case Destroy(id) => Forget(h, id)
  }

  function Run(h: History, actions: seq<Action>): History {
    if actions == [] then h
    else Step(Run(h, actions[..|actions| - 1]), actions[|actions| - 1])
  }

  predicate Bounded(h: History) {
    |h.back| + |h.forward| <= MAXIMUM_HISTORY && !h.restoring
  }

  lemma PushKeepsBound(h: History, l: Location)
    requires Bounded(h)
    ensures Bounded(Push(h, l))
  {
  }

  lemma NavigateKeepsBound(h: History, back: bool, w: Workspace, active: Option<Location>, naps: set<EditorId>)
    requires Bounded(h)
    ensures Bounded(Navigate(h, back, w, active, naps).0)
  {
  }

  /** Both stacks together never exceed the limit, although moving between them never trims. */
  lemma {:induction false} HistoryIsBounded(actions: seq<Action>)
    ensures Bounded(Run(Init(), actions))
  {
    if actions != [] {
      var h := Run(Init(), actions[..|actions| - 1]);
      HistoryIsBounded(actions[..|actions| - 1]);
      match actions[|actions| - 1]
      case CaretMoves(active) => PushKeepsBound(h, h.last);
      case Jump(from, landed) => if from.Some? { PushKeepsBound(h, from.value); }
      case Go(back, w, active, naps) => NavigateKeepsBound(h, back, w, active, naps);
      case Destroy(id) =>
    }
  }

  // ---------- what recording keeps ----------

  /** `some` is the newest part of `all`, in order: all of it, or the fifty newest entries. */
  predicate IsNewest(some: seq<Location>, all: seq<Location>) {
    |some| == (if |all| < 50 then |all| else 50) && some == all[|all| - |some|..]
  }

  /** A place without an editor or a file cannot be gone back to, and the place on top is not recorded again. */
  predicate Skipped(back: seq<Location>, l: Location) {
    || (l.editor.None? && l.filePath == "")
    || (back != [] && var top := back[|back| - 1];
        top.editor == l.editor && top.filePath == l.filePath && top.line == l.line)
  }

  /** Recording a place appends it, forgets the oldest ones beyond fifty, and ends the way forward. */
  lemma PushMeans(h: History, l: Location)
    ensures var h' := Push(h, l);
            && h'.last == h.last && h'.restoring == h.restoring
            && (Skipped(h.back, l) ==> h' == h)
            && (!Skipped(h.back, l) ==> IsNewest(h'.back, h.back + [l]) && h'.forward == [])
  {
  }

  /** The editor changed, or the caret is ten or more lines away. */
  predicate Departs(last: Location, current: Location) {
    || last.editor != current.editor
    || current.line >= last.line + 10 || current.line <= last.line - 10
  }

  /**
    A caret move always becomes the last location, and it puts the place left behind on top of the
    back stack when the editor changed or the caret jumped; any other move leaves both stacks alone.
   */
  lemma TrackRecordsDepartures(h: History, current: Location)
    requires !h.restoring
    ensures var h' := Track(h, Some(current));
            && h'.last == current && !h'.restoring
            && (if Departs(h.last, current) && (h.last.editor.Some? || h.last.filePath != "")
                then h'.back != [] && SameEntry(h'.back[|h'.back| - 1], h.last)
                else h'.back == h.back && h'.forward == h.forward)
            && (h'.back != h.back ==> h'.forward == [] && IsNewest(h'.back, h.back + [h.last]))
            && (Departs(h.last, current) && !Skipped(h.back, h.last) ==>
                  h'.forward == [] && IsNewest(h'.back, h.back + [h.last]))
  {
  }

  /** Where the caret is after a run without Back and Forward. */
  function Place(start: Location, actions: seq<Action>): Location {
    if actions == [] then start
    else
      var before := Place(start, actions[..|actions| - 1]);
      match actions[|actions| - 1]
      case CaretMoves(active) => if active.Some? then active.value else before
      case Jump(_, landed) => landed
      case _ => before
  }

  function With(places: seq<Location>, l: Location): seq<Location> {
    if Skipped(places, l) then places else places + [l]
  }

  /** Every place such a run departs from, oldest first, none dropped. */
  function Departures(places: seq<Location>, start: Location, actions: seq<Action>): seq<Location> {
    if actions == [] then places
    else
      var before := Departures(places, start, actions[..|actions| - 1]);
      var place := Place(start, actions[..|actions| - 1]);
      match actions[|actions| - 1]
      case CaretMoves(active) =>
        if active.Some? && Departs(place, active.value) then With(before, place) else before
      case Jump(from, _) => if from.Some? then With(before, from.value) else before
      case _ => before
  }

  predicate Recording(actions: seq<Action>) {
    forall i | 0 <= i < |actions| :: actions[i].CaretMoves? || actions[i].Jump?
  }

  /**
    Over every run of caret moves and jumps, from any history: the back stack is the newest fifty
    of all the places departed from, in order.
   */
  lemma {:induction false} BackIsNewestDepartures(h: History, actions: seq<Action>)
    requires Recording(actions) && |h.back| <= 50 && !h.restoring
    ensures var h' := Run(h, actions);
            && h'.last == Place(h.last, actions) && !h'.restoring
            && IsNewest(h'.back, Departures(h.back, h.last, actions))
            && (h'.forward == [] || h'.forward == h.forward)
            && (|Departures(h.back, h.last, actions)| > |h.back| ==> h'.forward == [])
            && |Departures(h.back, h.last, actions)| >= |h.back|
  {
    if actions != [] {
      var before, a := actions[..|actions| - 1], actions[|actions| - 1];
      BackIsNewestDepartures(h, before);
      var m := Run(h, before);
      var all := Departures(h.back, h.last, before);
      match a
      case CaretMoves(active) => TrackAdds(m, all, active);
      case Jump(from, landed) => if from.Some? { PushAdds(m, all, from.value); }
    }
  }

  lemma PushAdds(h: History, all: seq<Location>, l: Location)
    requires IsNewest(h.back, all)
    ensures var h' := Push(h, l);
            && IsNewest(h'.back, With(all, l)) && h'.last == h.last && h'.restoring == h.restoring
            && (h'.forward == [] || h'.forward == h.forward)
            && (With(all, l) != all ==> h'.forward == []) && |With(all, l)| >= |all|
  {
    assert Skipped(h.back, l) <==> Skipped(all, l);
    PushMeans(h, l);
    if !Skipped(all, l) {
      NewestOfNewest(h.back, all, l, Push(h, l).back);
    }
  }

  lemma NewestOfNewest(back: seq<Location>, all: seq<Location>, l: Location, after: seq<Location>)
    requires IsNewest(back, all) && IsNewest(after, back + [l])
    ensures IsNewest(after, all + [l])
  {
  }

  lemma TrackPushes(h: History, current: Location)
    requires !h.restoring
    ensures Track(h, Some(current)) == (if Departs(h.last, current) then Push(h, h.last) else h).(last := current)
  {
  }

  lemma TrackAdds(h: History, all: seq<Location>, active: Option<Location>)
    requires IsNewest(h.back, all) && !h.restoring
    ensures var h' := Track(h, active);
            var all' := if active.Some? && Departs(h.last, active.value) then With(all, h.last) else all;
            && h'.last == (if active.Some? then active.value else h.last) && !h'.restoring
            && IsNewest(h'.back, all')
            && (h'.forward == [] || h'.forward == h.forward)
            && (all' != all ==> h'.forward == []) && |all'| >= |all|
  {
    if active.Some? {
      TrackPushes(h, active.value);
      if Departs(h.last, active.value) {
        PushAdds(h, all, h.last);
      }
    }
  }

  /** When an editor is gone its entries keep their file and place and lose only the editor. */
  lemma ForgetMeans(h: History, id: EditorId)
    ensures var h' := Forget(h, id);
            && h'.restoring == h.restoring && LostOnly(h.last, h'.last, id)
            && |h'.back| == |h.back| && (forall i | 0 <= i < |h.back| :: LostOnly(h.back[i], h'.back[i], id))
            && |h'.forward| == |h.forward|
            && (forall i | 0 <= i < |h.forward| :: LostOnly(h.forward[i], h'.forward[i], id))
  {
  }

  predicate LostOnly(l: Location, l': Location, id: EditorId) {
    && l'.filePath == l.filePath && l'.line == l.line && l'.position == l.position
    && l'.editor == if l.editor == Some(id) then None else l.editor
  }
}
