/** Back and Forward as one move of a zipper: the line of places, and the caret on it. */
module NavigationZipper {
  import opened Options
  import opened Workspaces
  import opened NavigationHistory

  function Places(ls: seq<Location>): (ps: seq<Place>)
    ensures |ps| == |ls|
  {
    seq(|ls|, i requires 0 <= i < |ls| => PlaceOf(ls[i]))
  }

  function Reverse<T>(s: seq<T>): (r: seq<T>)
    ensures |r| == |s|
    ensures forall i | 0 <= i < |s| :: r[i] == s[|s| - 1 - i]
  {
    seq(|s|, i requires 0 <= i < |s| => s[|s| - 1 - i])
  }

  /** Both sides with the caret between them, and the window they belong to. */
  datatype Zipper = Zipper(sides: Sides, at: Option<Location>, window: Workspace)

  function Here(at: Option<Location>): seq<Place> {
    if at.Some? then [PlaceOf(at.value)] else []
  }

  /** Everything the zipper holds, in the direction of travel. */
  function Line(z: Zipper): seq<Place> {
    Places(z.sides.behind) + Here(z.at) + Reverse(Places(z.sides.ahead))
  }

  function Flip(z: Zipper): Zipper {
    z.(sides := Sides(z.sides.behind, z.sides.ahead))
  }

  function Advance(z: Zipper, naps: set<EditorId>): Zipper {
    var (sides, target) := Hop(z.sides, z.window, z.at);
    if target.None? then z.(sides := sides)
    else
      var r := Restore(z.window, target.value, naps, z.at);
      Zipper(sides, r.active, r.workspace)
  }

  /** One move for each choice the tab policy makes. */
  function Advances(z: Zipper, naps: seq<set<EditorId>>): Zipper
    decreases |naps|
  {
    if naps == [] then z else Advances(Advance(z, naps[0]), naps[1..])
  }

  lemma PlacesOfParts(a: seq<Location>, b: seq<Location>)
    ensures Places(a + b) == Places(a) + Places(b)
    ensures Reverse(Places(a + b)) == Reverse(Places(b)) + Reverse(Places(a))
  {
    assert forall i | 0 <= i < |a| :: (a + b)[i] == a[i];
    assert forall i | 0 <= i < |b| :: (a + b)[|a| + i] == b[i];
    assert Places(a + b) == Places(a) + Places(b);
  }

  // ---------- one move ----------

  /** The caret, if there is one, is where an editor on the screen has it. */
  predicate CaretIsCurrent(z: Zipper) {
    z.at.Some? ==> Current(z.window, z.at.value)
  }

  /** A file that no tab shows is not the one the caret is in. */
  lemma OpenIsElsewhere(w: Workspace, a: Location, l: Location)
    requires Valid(w) && Current(w, a) && AimOf(w, l).Open?
    ensures PlaceOf(a) != PlaceOf(l)
  {
    var id := a.editor.value;
    var owner := if id in w.docs then id else w.split.value.source;
    assert owner in w.order && w.docs[owner].path == a.filePath;
    NoTabShows(w.docs, w.order, l.filePath);
  }

  /**
    One move, from any window: without an available entry ahead the side ahead is emptied and nothing
    else happens. Otherwise the line of places keeps its order and loses exactly the unavailable
    entries the move passes, with the caret on the nearest available one, if and only if the file and
    line recorded there still stand.
   */
  lemma {:induction false} NavigateIsZipper(z: Zipper, naps: set<EditorId>)
    requires Valid(z.window) && CaretIsCurrent(z)
    ensures var z' := Advance(z, naps);
            var live := Live(z.window, z.sides.ahead);
            var skipped, from := |z.sides.ahead| - |live|, |z.sides.behind| + |Here(z.at)|;
            && (forall i | |live| <= i < |z.sides.ahead| :: !IsAvailable(z.window, z.sides.ahead[i]))
            && (live == [] ==> z' == z.(sides := z.sides.(ahead := [])) && Line(z') == Line(z)[..from])
            && (live != [] ==>
                  && z'.sides.ahead == live[..|live| - 1] && |Places(z'.sides.behind)| == from
                  && (Line(z') == Line(z)[..from] + Line(z)[from + skipped..] <==>
                        Unchanged(z.window, live[|live| - 1])))
  {
    LiveIsNearest(z.window, z.sides.ahead);
    if Live(z.window, z.sides.ahead) == [] {
      MovesNowhere(z, naps);
    } else {
      MovesSomewhere(z, naps);
    }
  }

  lemma MovesNowhere(z: Zipper, naps: set<EditorId>)
    requires Live(z.window, z.sides.ahead) == []
    ensures Advance(z, naps) == z.(sides := z.sides.(ahead := []))
    ensures Line(Advance(z, naps)) == Line(z)[..|z.sides.behind| + |Here(z.at)|]
  {
    LineAhead(z, []);
    EmptiedLine(z, naps, Places(z.sides.behind) + Here(z.at));
  }

  lemma MovesSomewhere(z: Zipper, naps: set<EditorId>)
    requires Valid(z.window) && CaretIsCurrent(z) && Live(z.window, z.sides.ahead) != []
    ensures var z' := Advance(z, naps);
            var live := Live(z.window, z.sides.ahead);
            var skipped, from := |z.sides.ahead| - |live|, |z.sides.behind| + |Here(z.at)|;
            && z'.sides.ahead == live[..|live| - 1] && |Places(z'.sides.behind)| == from
            && (Line(z') == Line(z)[..from] + Line(z)[from + skipped..] <==>
                  Unchanged(z.window, live[|live| - 1]))
  {
    SidesMoved(z, naps);
    SkippedLine(z);
    MovedLineAgrees(z, naps, Places(z.sides.behind) + Here(z.at), Reverse(Places(Live(z.window, z.sides.ahead))));
  }

  lemma SidesMoved(z: Zipper, naps: set<EditorId>)
    requires Live(z.window, z.sides.ahead) != []
    ensures var live, z' := Live(z.window, z.sides.ahead), Advance(z, naps);
            z'.sides.ahead == live[..|live| - 1] && |z'.sides.behind| == |z.sides.behind| + |Here(z.at)|
  {
  }

  lemma SkippedLine(z: Zipper)
    ensures var live := Live(z.window, z.sides.ahead);
            var skipped, from := |z.sides.ahead| - |live|, |z.sides.behind| + |Here(z.at)|;
            && 0 <= from <= from + skipped <= |Line(z)|
            && Line(z)[..from] + Line(z)[from + skipped..]
               == Places(z.sides.behind) + Here(z.at) + Reverse(Places(live))
  {
    LiveIsNearest(z.window, z.sides.ahead);
    LineAhead(z, Live(z.window, z.sides.ahead));
  }

  lemma EmptiedLine(z: Zipper, naps: set<EditorId>, trail: seq<Place>)
    requires Live(z.window, z.sides.ahead) == [] && trail == Places(z.sides.behind) + Here(z.at)
    ensures Advance(z, naps) == z.(sides := z.sides.(ahead := [])) && Line(Advance(z, naps)) == trail
  {
    assert Reverse(Places([])) == [] && trail + [] == trail;
  }

  lemma MovedLineAgrees(z: Zipper, naps: set<EditorId>, trail: seq<Place>, way: seq<Place>)
    requires Valid(z.window) && CaretIsCurrent(z) && Live(z.window, z.sides.ahead) != []
    requires trail == Places(z.sides.behind) + Here(z.at) && way == Reverse(Places(Live(z.window, z.sides.ahead)))
    ensures var live := Live(z.window, z.sides.ahead);
            Line(Advance(z, naps)) == trail + way <==> Unchanged(z.window, live[|live| - 1])
  {
    var live := Live(z.window, z.sides.ahead);
    var n := |live| - 1;
    LiveIsNearest(z.window, z.sides.ahead);
    MovedLine(z, naps);
    MoveLands(z, live[n], naps);
    assert live == live[..n] + [live[n]];
    PlaceAppended(live[..n], live[n]);
    HeadsAgree(trail, Here(Advance(z, naps).at), PlaceOf(live[n]), Reverse(Places(live[..n])));
  }

  lemma PlaceAppended(ls: seq<Location>, l: Location)
    ensures Places(ls + [l]) == Places(ls) + [PlaceOf(l)]
    ensures Reverse(Places(ls + [l])) == [PlaceOf(l)] + Reverse(Places(ls))
  {
    assert Places(ls + [l]) == Places(ls) + [PlaceOf(l)];
  }

  /** The line up to the caret, and what is on it from the nearest available entry on. */
  lemma LineAhead(z: Zipper, live: seq<Location>)
    requires live <= z.sides.ahead
    ensures var from, skipped := |z.sides.behind| + |Here(z.at)|, |z.sides.ahead| - |live|;
            && Line(z)[..from] == Places(z.sides.behind) + Here(z.at)
            && Line(z)[from + skipped..] == Reverse(Places(live))
  {
    var ahead := z.sides.ahead;
    assert ahead == live + ahead[|live|..];
    PlacesOfParts(live, ahead[|live|..]);
  }

  lemma MovedLine(z: Zipper, naps: set<EditorId>)
    requires Live(z.window, z.sides.ahead) != []
    ensures var live, z' := Live(z.window, z.sides.ahead), Advance(z, naps);
            var n := |live| - 1;
            && Places(z'.sides.behind) == Places(z.sides.behind) + Here(z.at)
            && Line(z') == (Places(z.sides.behind) + Here(z.at)) + (Here(z'.at) + Reverse(Places(live[..n])))
  {
    var live, z' := Live(z.window, z.sides.ahead), Advance(z, naps);
    assert z'.sides.ahead == live[..|live| - 1];
    if z.at.Some? {
      PlaceAppended(z.sides.behind, z.at.value);
      assert z'.sides.behind == z.sides.behind + [z.at.value];
    } else {
      assert z'.sides.behind == z.sides.behind;
    }
    Regrouped(Places(z.sides.behind) + Here(z.at), Here(z'.at), Reverse(Places(live[..|live| - 1])));
  }

  lemma Regrouped<T>(a: seq<T>, b: seq<T>, c: seq<T>)
    ensures (a + b) + c == a + (b + c)
  {
  }

  lemma MoveLands(z: Zipper, target: Location, naps: set<EditorId>)
    requires Valid(z.window) && CaretIsCurrent(z) && IsAvailable(z.window, target)
    ensures Here(Restore(z.window, target, naps, z.at).active) == [PlaceOf(target)] <==> Unchanged(z.window, target)
    ensures |Here(Restore(z.window, target, naps, z.at).active)| <= 1
  {
    LandsWhereRecorded(z.window, target, naps, z.at);
    if AimOf(z.window, target).Open? && z.at.Some? {
      OpenIsElsewhere(z.window, z.at.value, target);
    }
  }

  lemma HeadsAgree<T>(before: seq<T>, here: seq<T>, x: T, rest: seq<T>)
    requires |here| <= 1
    ensures before + (here + rest) == before + ([x] + rest) <==> here == [x]
  {
    if before + (here + rest) == before + ([x] + rest) {
      assert |here| == 1;
      assert (before + (here + rest))[|before|] == here[0] && (before + ([x] + rest))[|before|] == x;
    }
  }

  // ---------- many moves ----------

  /** The entry that the next move goes to, if any. */
  function Nearest(w: Workspace, ahead: seq<Location>): Option<Location> {
    var live := Live(w, ahead);
    if live == [] then None else Some(live[|live| - 1])
  }

  function Beyond(w: Workspace, ahead: seq<Location>): (rest: seq<Location>)
    ensures |rest| <= |ahead|
  {
    var live := Live(w, ahead);
    if live == [] then [] else live[..|live| - 1]
  }

  /** The `n` nearest available entries, in the order they are visited; fewer when there are not as many. */
  function Visited(w: Workspace, ahead: seq<Location>, n: nat): seq<Location>
    decreases n
  {
    if n == 0 || Nearest(w, ahead).None? then []
    else [Nearest(w, ahead).value] + Visited(w, Beyond(w, ahead), n - 1)
  }

  /** What is left ahead after them. */
  function Rest(w: Workspace, ahead: seq<Location>, n: nat): seq<Location>
    decreases n
  {
    if n == 0 then ahead else Rest(w, Beyond(w, ahead), n - 1)
  }

  /** `n` entries ahead can be visited, and each still says where it leads. */
  predicate Ready(w: Workspace, ahead: seq<Location>, n: nat)
    decreases n
  {
    n == 0
    || (Nearest(w, ahead).Some? && Unchanged(w, Nearest(w, ahead).value) && Ready(w, Beyond(w, ahead), n - 1))
  }

  /** No file among those visited opens by throwing a pristine document away. */
  predicate DiscardsNone(w: Workspace, visits: seq<Location>) {
    forall i {:trigger Discards(w, visits[i])} | 0 <= i < |visits| :: !Discards(w, visits[i])
  }

  predicate AllKnown(w: Workspace, ls: seq<Location>) {
    forall i {:trigger Known(w, ls[i])} | 0 <= i < |ls| :: Known(w, ls[i])
  }

  /** The caret is in a text that is on the screen, and the texts have not changed underneath. */
  ghost predicate Sound(z: Zipper) {
    && Valid(z.window) && InSync(z.window) && AllKnown(z.window, z.sides.ahead) && AllKnown(z.window, z.sides.behind)
    && z.at.Some? && Current(z.window, z.at.value) && IsAvailable(z.window, z.at.value)
  }

  lemma {:induction false} LiveAlike(w: Workspace, w': Workspace, ahead: seq<Location>)
    requires Alike(w, w') && AllKnown(w, ahead)
    ensures Live(w', ahead) == Live(w, ahead)
  {
    if ahead != [] {
      assert AlikeAt(w, w', ahead[|ahead| - 1]);
      LiveAlike(w, w', ahead[..|ahead| - 1]);
    }
  }

  lemma BeyondIsPrefix(w: Workspace, ahead: seq<Location>)
    ensures Beyond(w, ahead) <= ahead
    ensures Nearest(w, ahead).Some? ==> Nearest(w, ahead).value in ahead && IsAvailable(w, Nearest(w, ahead).value)
  {
    LiveIsNearest(w, ahead);
  }

  lemma NearestAlike(w: Workspace, w': Workspace, ahead: seq<Location>)
    requires Alike(w, w') && AllKnown(w, ahead)
    ensures Nearest(w', ahead) == Nearest(w, ahead) && Beyond(w', ahead) == Beyond(w, ahead)
    ensures AllKnown(w, Beyond(w, ahead))
    ensures Nearest(w, ahead).Some? ==>
              var first := Nearest(w, ahead).value;
              Unchanged(w', first) == Unchanged(w, first) && (Discards(w', first) ==> Discards(w, first))
  {
    LiveAlike(w, w', ahead);
    BeyondIsPrefix(w, ahead);
    if Nearest(w, ahead).Some? {
      assert Known(w, Nearest(w, ahead).value);
      AlikeKeepsUnchanged(w, w', Nearest(w, ahead).value);
    }
  }

  lemma VisitsSplit(w: Workspace, first: Location, more: seq<Location>)
    ensures DiscardsNone(w, [first] + more) <==> !Discards(w, first) && DiscardsNone(w, more)
  {
    assert ([first] + more)[0] == first;
    assert forall i | 0 <= i < |more| :: ([first] + more)[i + 1] == more[i];
  }

  lemma {:induction false} ReadyAlike(w: Workspace, w': Workspace, ahead: seq<Location>, n: nat)
    requires Alike(w, w') && AllKnown(w, ahead) && Ready(w, ahead, n)
    ensures Ready(w', ahead, n)
    ensures Visited(w', ahead, n) == Visited(w, ahead, n) && Rest(w', ahead, n) == Rest(w, ahead, n)
    ensures DiscardsNone(w, Visited(w, ahead, n)) ==> DiscardsNone(w', Visited(w, ahead, n))
    decreases n
  {
    if n > 0 {
      var first, more := Nearest(w, ahead).value, Visited(w, Beyond(w, ahead), n - 1);
      NearestAlike(w, w', ahead);
      ReadyAlike(w, w', Beyond(w, ahead), n - 1);
      VisitsSplit(w, first, more);
      VisitsSplit(w', first, more);
    }
  }

  lemma KnownLater(w: Workspace, w': Workspace, ls: seq<Location>, some: seq<Location>)
    requires w.next <= w'.next && AllKnown(w, ls) && some <= ls
    ensures AllKnown(w', some)
  {
    forall i | 0 <= i < |some|
      ensures Known(w', some[i])
    {
      assert some[i] == ls[i] && Known(w, ls[i]);
    }
  }

  /** One move of a sound zipper whose nearest entry is unchanged and discards nothing. */
  lemma AdvanceIsSound(z: Zipper, naps: set<EditorId>)
    requires Sound(z) && Ready(z.window, z.sides.ahead, 1)
    requires !Discards(z.window, Nearest(z.window, z.sides.ahead).value)
    ensures var z' := Advance(z, naps);
            && Sound(z') && Alike(z.window, z'.window)
            && z'.sides == Sides(Beyond(z.window, z.sides.ahead), z.sides.behind + [z.at.value])
            && PlaceOf(z'.at.value) == PlaceOf(Nearest(z.window, z.sides.ahead).value)
  {
    var w, target := z.window, Nearest(z.window, z.sides.ahead).value;
    var r := Restore(w, target, naps, z.at);
    assert Ready(w, z.sides.ahead, 1) ==> Unchanged(w, target);
    LandsWhereRecorded(w, target, naps, z.at);
    LandingIsCurrent(w, target, naps, z.at);
    RestoreKeepsTheRest(w, target, naps, z.at);
    MovedIsSound(z, Zipper(Sides(Beyond(w, z.sides.ahead), z.sides.behind + [z.at.value]), r.active, r.workspace));
  }

  lemma MovedIsSound(z: Zipper, z': Zipper)
    requires Sound(z) && z'.sides == Sides(Beyond(z.window, z.sides.ahead), z.sides.behind + [z.at.value])
    requires Valid(z'.window) && InSync(z'.window) && z.window.next <= z'.window.next
    requires z'.at.Some? && Current(z'.window, z'.at.value) && IsAvailable(z'.window, z'.at.value)
    ensures Sound(z')
  {
    BeyondIsPrefix(z.window, z.sides.ahead);
    KnownLater(z.window, z'.window, z.sides.ahead, z'.sides.ahead);
    CurrentIsUnchanged(z.window, z.at.value);
    assert AllKnown(z.window, z.sides.behind + [z.at.value]) by {
      assert forall i | 0 <= i < |z.sides.behind| :: Known(z.window, z.sides.behind[i]);
    }
    KnownLater(z.window, z'.window, z.sides.behind + [z.at.value], z'.sides.behind);
  }

  /** `z'` is `z` after moves to the places of `visits`, with `rest` left ahead. */
  ghost predicate Travelled(z: Zipper, z': Zipper, visits: seq<Location>, rest: seq<Location>)
    requires z.at.Some?
  {
    && Sound(z') && Alike(z.window, z'.window) && z'.sides.ahead == rest
    && |z'.sides.behind| == |z.sides.behind| + |visits| && z.sides.behind <= z'.sides.behind
    && AllStay(z'.window, z'.sides.behind[|z.sides.behind|..])
    && Places(z'.sides.behind + [z'.at.value]) == Places(z.sides.behind + [z.at.value]) + Places(visits)
  }

  predicate AllStay(w: Workspace, ls: seq<Location>) {
    forall i {:trigger Stays(w, ls[i])} | 0 <= i < |ls| :: Stays(w, ls[i])
  }

  /** The entry can be returned to without opening a file. */
  predicate Stays(w: Workspace, l: Location) {
    Unchanged(w, l) && !AimOf(w, l).Open?
  }

  /** What the moves to `visits` need. */
  ghost predicate CanTravel(z: Zipper, visits: seq<Location>) {
    && Sound(z) && Ready(z.window, z.sides.ahead, |visits|)
    && visits == Visited(z.window, z.sides.ahead, |visits|) && DiscardsNone(z.window, visits)
  }

  /** What `n` moves do: the state they pass to and the trail they leave. */
  lemma {:induction false} AdvancesTravel(z: Zipper, naps: seq<set<EditorId>>, visits: seq<Location>)
    returns (z': Zipper, rest: seq<Location>)
    requires |naps| == |visits| && CanTravel(z, visits)
    ensures z' == Advances(z, naps) && rest == Rest(z.window, z.sides.ahead, |visits|)
    ensures Travelled(z, z', visits, rest)
    decreases |naps|
  {
    if naps == [] {
      NoTravel(z);
      z', rest := z, z.sides.ahead;
    } else {
      var z1, first, more := FirstMove(z, naps[0], visits);
      z', rest := AdvancesTravel(z1, naps[1..], more);
      TravelOneMore(z, z1, z', first, more, rest);
    }
  }

  lemma NoTravel(z: Zipper)
    requires Sound(z)
    ensures Travelled(z, z, [], z.sides.ahead)
  {
    assert Places(z.sides.behind + [z.at.value]) + Places([]) == Places(z.sides.behind + [z.at.value]);
  }

  /** After the first move everything the others need is there. */
  lemma FirstMove(z: Zipper, nap: set<EditorId>, visits: seq<Location>)
    returns (z1: Zipper, first: Location, more: seq<Location>)
    requires visits != [] && CanTravel(z, visits)
    ensures z1 == Advance(z, nap) && visits == [first] + more && CanTravel(z1, more)
    ensures Alike(z.window, z1.window) && z1.sides.behind == z.sides.behind + [z.at.value]
    ensures PlaceOf(z1.at.value) == PlaceOf(first)
    ensures Rest(z.window, z.sides.ahead, |visits|) == Rest(z1.window, z1.sides.ahead, |more|)
  {
    z1 := Advance(z, nap);
    first, more := FirstVisit(z.window, z.sides.ahead, visits);
    AdvanceIsSound(z, nap);
    assert AllKnown(z.window, Beyond(z.window, z.sides.ahead)) by { NearestAlike(z.window, z1.window, z.sides.ahead); }
    ReadyAlike(z.window, z1.window, Beyond(z.window, z.sides.ahead), |more|);
  }

  lemma FirstVisit(w: Workspace, ahead: seq<Location>, visits: seq<Location>)
    returns (first: Location, more: seq<Location>)
    requires visits != [] && visits == Visited(w, ahead, |visits|)
    requires Ready(w, ahead, |visits|) && DiscardsNone(w, visits)
    ensures visits == [first] + more && Nearest(w, ahead) == Some(first) && Ready(w, ahead, 1) && !Discards(w, first)
    ensures more == Visited(w, Beyond(w, ahead), |more|) && DiscardsNone(w, more)
    ensures Ready(w, Beyond(w, ahead), |more|) && Rest(w, ahead, |visits|) == Rest(w, Beyond(w, ahead), |more|)
  {
    first, more := Nearest(w, ahead).value, Visited(w, Beyond(w, ahead), |visits| - 1);
    assert visits == [first] + more;
    VisitsSplit(w, first, more);
  }

  lemma TravelOneMore(z: Zipper, z1: Zipper, z': Zipper, first: Location, more: seq<Location>, rest: seq<Location>)
    requires Sound(z) && Alike(z.window, z1.window) && z1.at.Some? && Travelled(z1, z', more, rest)
    requires z1.sides.behind == z.sides.behind + [z.at.value] && PlaceOf(z1.at.value) == PlaceOf(first)
    ensures Travelled(z, z', [first] + more, rest)
  {
    AlikeIsTransitive(z.window, z1.window, z'.window);
    LeftBehindStays(z, z', z.at.value);
    TrailGrows(z.sides.behind, z.at.value, z1.at.value, first, more);
  }

  lemma LeftBehindStays(z: Zipper, z': Zipper, a: Location)
    requires Sound(z) && z.at == Some(a) && Alike(z.window, z'.window)
    ensures Stays(z'.window, a)
  {
    CurrentIsUnchanged(z.window, a);
    AlikeKeepsUnchanged(z.window, z'.window, a);
    assert AlikeAt(z.window, z'.window, a);
  }

  lemma TrailGrows(behind: seq<Location>, at: Location, landed: Location, first: Location, more: seq<Location>)
    requires PlaceOf(landed) == PlaceOf(first)
    ensures Places((behind + [at]) + [landed]) + Places(more) == Places(behind + [at]) + Places([first] + more)
  {
    PlacesOfParts(behind + [at], [landed]);
    PlacesOfParts([first], more);
  }

  // ---------- there and back ----------

  /** `ahead` without the unavailable entries among those that `n` moves pass. */
  function Thinned(w: Workspace, ahead: seq<Location>, n: nat): seq<Location>
    decreases n
  {
    if n == 0 || Nearest(w, ahead).None? then ahead
    else Thinned(w, Beyond(w, ahead), n - 1) + [Nearest(w, ahead).value]
  }

  /** The available entries of a list, in order. */
  function AvailableOf(w: Workspace, ls: seq<Location>): seq<Location> {
    if ls == [] then []
    else AvailableOf(w, ls[..|ls| - 1]) + if IsAvailable(w, ls[|ls| - 1]) then [ls[|ls| - 1]] else []
  }

  lemma {:induction false} NearestOf(w: Workspace, ahead: seq<Location>, k: nat)
    requires k <= |Beyond(w, ahead)| && Nearest(w, ahead).Some?
    ensures AvailableOf(w, ahead[k..]) == AvailableOf(w, Beyond(w, ahead)[k..]) + [Nearest(w, ahead).value]
  {
    var init, x := ahead[..|ahead| - 1], ahead[|ahead| - 1];
    assert ahead[k..] == init[k..] + [x];
    AvailableAppend(w, init[k..], x);
    if !IsAvailable(w, x) {
      assert Nearest(w, ahead) == Nearest(w, init) && Beyond(w, ahead) == Beyond(w, init);
      NearestOf(w, init, k);
    }
  }

  lemma AvailableAppend(w: Workspace, ls: seq<Location>, x: Location)
    ensures AvailableOf(w, ls + [x]) == AvailableOf(w, ls) + if IsAvailable(w, x) then [x] else []
  {
    assert (ls + [x])[..|ls|] == ls;
  }

  predicate CanVisit(w: Workspace, ahead: seq<Location>, n: nat) {
    |Visited(w, ahead, n)| == n
  }

  lemma {:induction false} ReadyCanVisit(w: Workspace, ahead: seq<Location>, n: nat)
    requires Ready(w, ahead, n)
    ensures CanVisit(w, ahead, n)
    decreases n
  {
    if n > 0 {
      ReadyCanVisit(w, Beyond(w, ahead), n - 1);
    }
  }

  /** The thinned list is what is not reached, untouched, and the `n` available entries of what is passed. */
  lemma {:induction false} ThinnedMeaning(w: Workspace, ahead: seq<Location>, n: nat)
    requires CanVisit(w, ahead, n)
    ensures var rest := Rest(w, ahead, n);
            && rest <= ahead && |AvailableOf(w, ahead[|rest|..])| == n
            && Thinned(w, ahead, n) == rest + AvailableOf(w, ahead[|rest|..])
            && Thinned(w, ahead, n) == rest + Reverse(Visited(w, ahead, n))
    decreases n
  {
    if n == 0 {
      assert ahead[|ahead|..] == [] && Reverse<Location>([]) == [] && ahead + [] == ahead;
    } else {
      var first, more := Nearest(w, ahead).value, Visited(w, Beyond(w, ahead), n - 1);
      var rest := Rest(w, ahead, n);
      BeyondIsPrefix(w, ahead);
      ThinnedMeaning(w, Beyond(w, ahead), n - 1);
      NearestOf(w, ahead, |rest|);
      assert Reverse([first] + more) == Reverse(more) + [first];
      assert (rest + Reverse(more)) + [first] == rest + (Reverse(more) + [first]);
      var available := AvailableOf(w, Beyond(w, ahead)[|rest|..]);
      assert (rest + available) + [first] == rest + (available + [first]);
    }
  }

  lemma VisitLast(w: Workspace, init: seq<Location>, last: Location, n: nat)
    requires IsAvailable(w, last)
    ensures Thinned(w, init + [last], n + 1) == Thinned(w, init, n) + [last]
    ensures Rest(w, init + [last], n + 1) == Rest(w, init, n)
    ensures Visited(w, init + [last], n + 1) == [last] + Visited(w, init, n)
  {
    assert Live(w, init + [last]) == init + [last];
    assert Beyond(w, init + [last]) == init;
  }

  /** Moving over `passed` alone thins nothing out of `rest + passed`. */
  predicate PassesAll(w: Workspace, rest: seq<Location>, passed: seq<Location>) {
    && Thinned(w, rest + passed, |passed|) == rest + passed && Rest(w, rest + passed, |passed|) == rest
    && Visited(w, rest + passed, |passed|) == Reverse(passed)
  }

  lemma PassesOneMore(w: Workspace, rest: seq<Location>, passed: seq<Location>, last: Location)
    requires IsAvailable(w, last) && PassesAll(w, rest, passed)
    ensures PassesAll(w, rest, passed + [last])
  {
    VisitLast(w, rest + passed, last, |passed|);
    ReverseAppend(passed, last);
    assert rest + (passed + [last]) == (rest + passed) + [last];
  }

  lemma ReverseAppend<T>(s: seq<T>, x: T)
    ensures Reverse(s + [x]) == [x] + Reverse(s)
  {
  }

  /** When the last entries are all available, the moves pass no other. */
  lemma {:induction false} NothingThinned(w: Workspace, rest: seq<Location>, passed: seq<Location>)
    requires forall i | 0 <= i < |passed| :: IsAvailable(w, passed[i])
    ensures PassesAll(w, rest, passed)
    decreases |passed|
  {
    if passed == [] {
      assert rest + passed == rest && Reverse<Location>([]) == [];
    } else {
      var m := |passed| - 1;
      assert passed == passed[..m] + [passed[m]];
      NothingThinned(w, rest, passed[..m]);
      PassesOneMore(w, rest, passed[..m], passed[m]);
    }
  }

  lemma {:induction false} VisitsInTurn(w: Workspace, ahead: seq<Location>, n: nat)
    requires CanVisit(w, ahead, n) && forall i | 0 <= i < n :: Unchanged(w, Visited(w, ahead, n)[i])
    ensures Ready(w, ahead, n)
    decreases n
  {
    if n > 0 {
      var first, more := Nearest(w, ahead).value, Visited(w, Beyond(w, ahead), n - 1);
      assert Visited(w, ahead, n) == [first] + more;
      assert forall i | 0 <= i < n - 1 :: ([first] + more)[i + 1] == more[i];
      assert ([first] + more)[0] == first;
      VisitsInTurn(w, Beyond(w, ahead), n - 1);
    }
  }

  /** The places on both sides and at the caret. */
  predicate Shows(z: Zipper, behind: seq<Location>, at: Location, ahead: seq<Location>) {
    && Places(z.sides.behind) == Places(behind) && Here(z.at) == [PlaceOf(at)] && Places(z.sides.ahead) == Places(ahead)
  }

  lemma {:induction false} BackWithoutDiscards(z: Zipper, out: seq<set<EditorId>>, home: seq<set<EditorId>>,
                                                    visits: seq<Location>)
    requires CanTravel(z, visits) && |home| == |out| == |visits|
    ensures Shows(Flip(Advances(Flip(Advances(z, out)), home)), z.sides.behind, z.at.value,
                  Rest(z.window, z.sides.ahead, |visits|) + Reverse(visits))
  {
    var there, rest := AdvancesTravel(z, out, visits);
    var left := there.sides.behind[|z.sides.behind|..];
    assert there.sides.behind == z.sides.behind + left;
    StayingIsReady(there.window, there.sides.behind, z.sides.behind, left);
    CanGoHome(there, left);
    var back, remains := AdvancesTravel(Flip(there), home, Reverse(left));
    HomeShows(z, there, back, left, visits, rest);
  }

  lemma HomeShows(z: Zipper, there: Zipper, back: Zipper,
                  left: seq<Location>, visits: seq<Location>, rest: seq<Location>)
    requires z.at.Some? && Travelled(z, there, visits, rest) && there.sides.behind == z.sides.behind + left
    requires Travelled(Flip(there), back, Reverse(left), z.sides.behind)
    ensures Shows(Flip(back), z.sides.behind, z.at.value, rest + Reverse(visits))
  {
    TrailReversed(z.sides.behind, z.at.value, left, there.at.value, visits);
    HomeTrail(rest, there.at.value, left, back.sides.behind, back.at.value, visits, z.at.value);
  }

  lemma FlipIsSound(z: Zipper)
    requires Sound(z)
    ensures Sound(Flip(z))
  {
  }

  lemma CanGoHome(there: Zipper, left: seq<Location>)
    requires Sound(there) && Ready(there.window, there.sides.behind, |Reverse(left)|)
    requires Reverse(left) == Visited(there.window, there.sides.behind, |Reverse(left)|)
    requires DiscardsNone(there.window, Reverse(left))
    ensures CanTravel(Flip(there), Reverse(left))
  {
    FlipIsSound(there);
  }

  lemma StayingIsReady(w: Workspace, all: seq<Location>, rest: seq<Location>, left: seq<Location>)
    requires all == rest + left && AllStay(w, left)
    ensures Ready(w, all, |Reverse(left)|) && Reverse(left) == Visited(w, all, |Reverse(left)|)
    ensures DiscardsNone(w, Reverse(left)) && Rest(w, all, |left|) == rest
  {
    assert forall i | 0 <= i < |left| :: Stays(w, left[i]);
    AllPassed(w, rest, left);
    assert forall i | 0 <= i < |left| :: Stays(w, Reverse(left)[i]);
  }

  lemma HomeTrail(rest: seq<Location>, last: Location, left: seq<Location>,
                  trail: seq<Location>, caret: Location, visits: seq<Location>, at: Location)
    requires Places(trail + [caret]) == Places(rest + [last]) + Places(Reverse(left))
    requires [PlaceOf(last)] + Places(Reverse(left)) == Places(Reverse(visits)) + [PlaceOf(at)]
    ensures Places(trail) == Places(rest + Reverse(visits)) && PlaceOf(caret) == PlaceOf(at)
  {
    PlaceAppended(trail, caret);
    PlaceAppended(rest, last);
    PlacesOfParts(rest, Reverse(visits));
    assert (Places(rest) + [PlaceOf(last)]) + Places(Reverse(left))
        == Places(rest) + ([PlaceOf(last)] + Places(Reverse(left)));
    assert Places(rest) + (Places(Reverse(visits)) + [PlaceOf(at)]) == Places(rest + Reverse(visits)) + [PlaceOf(at)];
    LastOf(Places(trail), PlaceOf(caret), Places(rest + Reverse(visits)), PlaceOf(at));
  }

  /** Read backwards, the trail of the way out ends where it began. */
  lemma TrailReversed(behind: seq<Location>, at: Location, left: seq<Location>, last: Location, visits: seq<Location>)
    requires Places((behind + left) + [last]) == Places(behind + [at]) + Places(visits)
    ensures [PlaceOf(last)] + Places(Reverse(left)) == Places(Reverse(visits)) + [PlaceOf(at)]
  {
    assert (behind + left) + [last] == behind + (left + [last]);
    PlacesOfParts(behind, left + [last]);
    PlaceAppended(behind, at);
    PlaceAppended(left, last);
    assert Places(left) + [PlaceOf(last)] == [PlaceOf(at)] + Places(visits) by {
      assert (Places(behind) + Places(left + [last]))[|behind|..] == Places(left + [last]);
      assert ((Places(behind) + [PlaceOf(at)]) + Places(visits))[|behind|..] == [PlaceOf(at)] + Places(visits);
    }
    assert Reverse(Places(left) + [PlaceOf(last)]) == [PlaceOf(last)] + Reverse(Places(left));
    assert Reverse([PlaceOf(at)] + Places(visits)) == Reverse(Places(visits)) + [PlaceOf(at)];
    assert Reverse(Places(left)) == Places(Reverse(left)) && Reverse(Places(visits)) == Places(Reverse(visits));
  }

  lemma LastOf<T>(a: seq<T>, x: T, b: seq<T>, y: T)
    requires a + [x] == b + [y]
    ensures a == b && x == y
  {
    assert (a + [x])[..|a|] == a && (b + [y])[..|b|] == b;
    assert (a + [x])[|a|] == x && (b + [y])[|b|] == y;
  }

  // ---------- a pristine document thrown away ----------

  /** The editor is gone and its number is not used again. */
  predicate Lost(w: Workspace, id: EditorId) {
    id !in w.docs && id < w.next && !(w.split.Some? && w.split.value.view == id)
  }

  predicate CaretElsewhere(z: Zipper, id: EditorId) {
    Lost(z.window, id) && (z.at.Some? ==> z.at.value.editor != Some(id))
  }

  lemma LostStaysLost(z: Zipper, naps: set<EditorId>, id: EditorId)
    requires CaretElsewhere(z, id)
    ensures CaretElsewhere(Advance(z, naps), id)
  {
    if Nearest(z.window, z.sides.ahead).Some? {
      var target := Nearest(z.window, z.sides.ahead).value;
      RestoreMoves(z.window, target, naps, z.at);
      ElsewhereAfter(z, target, Restore(z.window, target, naps, z.at), id);
    }
  }

  lemma ElsewhereAfter(z: Zipper, target: Location, r: Outcome, id: EditorId)
    requires CaretElsewhere(z, id) && Moves(z.window, target, z.at, r)
    ensures Lost(r.workspace, id) && (r.active.Some? ==> r.active.value.editor != Some(id))
  {
  }

  lemma {:induction false} LostForGood(z: Zipper, naps: seq<set<EditorId>>, id: EditorId)
    requires CaretElsewhere(z, id)
    ensures CaretElsewhere(Advances(z, naps), id)
    decreases |naps|
  {
    if naps != [] {
      LostStaysLost(z, naps[0], id);
      LostForGood(Advance(z, naps[0]), naps[1..], id);
    }
  }

  /** In a window with nothing but a pristine document the caret is in it, at no file. */
  lemma PristineCaret(w: Workspace, a: Location)
    requires Valid(w) && Pristine(w) && Current(w, a) && IsAvailable(w, a)
    ensures a.editor == Some(w.order[0]) && a.filePath == ""
  {
    assert forall id :: id in w.docs <==> id == w.order[0];
  }

  /** There, a move that opens no file stays in the document and leaves the window as it is. */
  lemma PristineStays(w: Workspace, t: Location, naps: set<EditorId>, active: Option<Location>)
    requires Valid(w) && Pristine(w) && Unchanged(w, t) && !AimOf(w, t).Open?
    ensures Restore(w, t, naps, active).workspace == w
  {
    var id := w.order[0];
    assert forall i :: i in w.docs <==> i == id;
    NoTabShows(w.docs, w.order, t.filePath);
    assert AimOf(w, t) == InTab(id);
    assert WithDoc(w, id, w.docs[id]).docs == w.docs;
    assert Rested(w, id, naps).docs == w.docs;
  }

  lemma DiscardingLoses(z: Zipper, naps: set<EditorId>)
    requires Sound(z) && Ready(z.window, z.sides.ahead, 1)
    requires Discards(z.window, Nearest(z.window, z.sides.ahead).value)
    ensures CaretElsewhere(Advance(z, naps), z.window.order[0])
  {
    var w, target := z.window, Nearest(z.window, z.sides.ahead).value;
    assert Ready(w, z.sides.ahead, 1) ==> Unchanged(w, target);
    assert w.order[0] in w.docs;
    PristineCaret(w, z.at.value);
  }

  /** Some of these visits throws the document away. */
  ghost predicate WillDiscard(z: Zipper, visits: seq<Location>) {
    && Sound(z) && Ready(z.window, z.sides.ahead, |visits|)
    && visits == Visited(z.window, z.sides.ahead, |visits|) && !DiscardsNone(z.window, visits)
  }

  lemma FirstDiscard(z: Zipper, visits: seq<Location>) returns (first: Location, more: seq<Location>)
    requires WillDiscard(z, visits)
    ensures visits == [first] + more && Pristine(z.window) && Ready(z.window, z.sides.ahead, 1)
    ensures Nearest(z.window, z.sides.ahead) == Some(first)
    ensures more == Visited(z.window, Beyond(z.window, z.sides.ahead), |more|)
    ensures Ready(z.window, Beyond(z.window, z.sides.ahead), |more|)
    ensures !Discards(z.window, first) ==> !DiscardsNone(z.window, more)
  {
    first := Nearest(z.window, z.sides.ahead).value;
    more := Visited(z.window, Beyond(z.window, z.sides.ahead), |visits| - 1);
    assert visits == [first] + more;
    VisitsSplit(z.window, first, more);
  }

  lemma PristineAdvance(z: Zipper, nap: set<EditorId>) returns (z1: Zipper)
    requires Sound(z) && Ready(z.window, z.sides.ahead, 1) && Pristine(z.window)
    requires !Discards(z.window, Nearest(z.window, z.sides.ahead).value)
    ensures z1 == Advance(z, nap) && Sound(z1) && z1.window == z.window
    ensures z1.sides.ahead == Beyond(z.window, z.sides.ahead)
  {
    var target := Nearest(z.window, z.sides.ahead).value;
    z1 := Advance(z, nap);
    AdvanceIsSound(z, nap);
    assert Ready(z.window, z.sides.ahead, 1) ==> Unchanged(z.window, target);
    PristineStays(z.window, target, nap, z.at);
  }

  /** If a visit throws the document away, the caret never gets back into it. */
  lemma {:induction false} DiscardIsForGood(z: Zipper, naps: seq<set<EditorId>>, visits: seq<Location>)
    requires |naps| == |visits| && WillDiscard(z, visits)
    ensures Pristine(z.window) && CaretElsewhere(Advances(z, naps), z.window.order[0])
    decreases |naps|
  {
    var first, more := FirstDiscard(z, visits);
    if Discards(z.window, first) {
      DiscardingLoses(z, naps[0]);
      LostForGood(Advance(z, naps[0]), naps[1..], z.window.order[0]);
    } else {
      var z1 := PristineAdvance(z, naps[0]);
      DiscardIsForGood(z1, naps[1..], more);
    }
  }

  // ---------- a caret that cannot be returned to ----------

  /** The caret is not in the split view of a document without a file. */
  ghost predicate AwayFrom(z: Zipper, view: EditorId) {
    && Valid(z.window) && view !in z.window.docs && view < z.window.next
    && !(z.at.Some? && z.at.value.editor == Some(view) && z.at.value.filePath == "")
  }

  lemma MoveStaysAway(z: Zipper, target: Location, nap: set<EditorId>, view: EditorId)
    requires Valid(z.window) && view !in z.window.docs && view < z.window.next && IsAvailable(z.window, target)
    requires AwayFrom(z, view) || Unchanged(z.window, target)
    ensures var r := Restore(z.window, target, nap, z.at);
            AwayFrom(Zipper(z.sides, r.active, r.workspace), view)
  {
    var r := Restore(z.window, target, nap, z.at);
    RestoreIsValid(z.window, target, nap, z.at);
    RestoreMoves(z.window, target, nap, z.at);
    if Unchanged(z.window, target) {
      LandingIsCurrent(z.window, target, nap, z.at);
    }
    AwayAfter(z, target, r, view);
  }

  lemma AwayAfter(z: Zipper, target: Location, r: Outcome, view: EditorId)
    requires Valid(z.window) && view !in z.window.docs && view < z.window.next && IsAvailable(z.window, target)
    requires Valid(r.workspace) && Moves(z.window, target, z.at, r)
    requires AwayFrom(z, view) || (r.active.Some? && IsAvailable(r.workspace, r.active.value))
    ensures AwayFrom(Zipper(z.sides, r.active, r.workspace), view)
  {
  }

  lemma AdvanceStaysAway(z: Zipper, nap: set<EditorId>, view: EditorId)
    requires AwayFrom(z, view)
    ensures AwayFrom(Advance(z, nap), view)
  {
    BeyondIsPrefix(z.window, z.sides.ahead);
    if Nearest(z.window, z.sides.ahead).Some? {
      MoveStaysAway(z, Nearest(z.window, z.sides.ahead).value, nap, view);
    }
  }

  lemma {:induction false} AdvancesStayAway(z: Zipper, naps: seq<set<EditorId>>, view: EditorId)
    requires AwayFrom(z, view)
    ensures AwayFrom(Advances(z, naps), view)
    decreases |naps|
  {
    if naps != [] {
      AdvanceStaysAway(z, naps[0], view);
      AdvancesStayAway(Advance(z, naps[0]), naps[1..], view);
    }
  }

  /**
    A caret in the split view of a document without a file is at a place no entry leads to: once it
    has moved away it does not get back.
   */
  lemma UnavailableCaretIsLeft(z: Zipper, out: seq<set<EditorId>>, home: seq<set<EditorId>>)
    requires Valid(z.window) && z.at.Some? && Current(z.window, z.at.value) && !IsAvailable(z.window, z.at.value)
    requires out != [] && Ready(z.window, z.sides.ahead, |out|)
    ensures Here(Flip(Advances(Flip(Advances(z, out)), home)).at) != [PlaceOf(z.at.value)]
  {
    var view := z.at.value.editor.value;
    FirstMoveLeaves(z, out[0], |out| - 1);
    AdvancesStayAway(Advance(z, out[0]), out[1..], view);
    AdvancesStayAway(Flip(Advances(z, out)), home, view);
    AwayIsElsewhere(Flip(Advances(Flip(Advances(z, out)), home)), z.at.value);
  }

  lemma FirstMoveLeaves(z: Zipper, nap: set<EditorId>, n: nat)
    requires Valid(z.window) && z.at.Some? && Current(z.window, z.at.value) && !IsAvailable(z.window, z.at.value)
    requires Ready(z.window, z.sides.ahead, n + 1)
    ensures z.at.value.editor.Some? && AwayFrom(Advance(z, nap), z.at.value.editor.value)
  {
    var target := Nearest(z.window, z.sides.ahead).value;
    assert Unchanged(z.window, target);
    BeyondIsPrefix(z.window, z.sides.ahead);
    MoveStaysAway(z, target, nap, z.at.value.editor.value);
  }

  lemma AwayIsElsewhere(z: Zipper, a: Location)
    requires a.editor.Some? && a.filePath == "" && AwayFrom(z, a.editor.value)
    ensures Here(z.at) != [PlaceOf(a)]
  {
  }

  /**
    `n` moves one way and `n` moves the other way, over available entries that are unchanged: the
    caret is back at its place, the side behind is what it was, and the side ahead is what it was less
    exactly the unavailable entries that were passed - if and only if no file on the way opened by
    replacing a pristine document.
   */
  lemma {:induction false} ThereAndBackAgain(z: Zipper, out: seq<set<EditorId>>, home: seq<set<EditorId>>)
    requires Sound(z) && |home| == |out| && Ready(z.window, z.sides.ahead, |out|)
    ensures var z' := Flip(Advances(Flip(Advances(z, out)), home));
            Shows(z', z.sides.behind, z.at.value, Thinned(z.window, z.sides.ahead, |out|))
            <==> DiscardsNone(z.window, Visited(z.window, z.sides.ahead, |out|))
  {
    var visits := Visited(z.window, z.sides.ahead, |out|);
    ReadyCanVisit(z.window, z.sides.ahead, |out|);
    if DiscardsNone(z.window, visits) {
      BackWithoutDiscards(z, out, home, visits);
      ThinnedMeaning(z.window, z.sides.ahead, |out|);
    } else {
      var gone := z.window.order[0];
      DiscardIsForGood(z, out, visits);
      LostForGood(Flip(Advances(z, out)), home, gone);
      PristineCaret(z.window, z.at.value);
    }
  }

  predicate AllUnchanged(w: Workspace, ls: seq<Location>) {
    forall i {:trigger Unchanged(w, ls[i])} | 0 <= i < |ls| :: Unchanged(w, ls[i])
  }

  /** Over entries that are all available nothing is thinned out: the line and the caret on it are the same. */
  lemma {:induction false} ThereAndBack(z: Zipper, rest: seq<Location>, passed: seq<Location>,
                                        out: seq<set<EditorId>>, home: seq<set<EditorId>>)
    requires Sound(z) && z.sides.ahead == rest + passed && |home| == |out| == |passed| && AllUnchanged(z.window, passed)
    ensures var z' := Flip(Advances(Flip(Advances(z, out)), home));
            (Line(z') == Line(z) && |z'.sides.behind| == |z.sides.behind| && z'.at.Some?)
            <==> DiscardsNone(z.window, passed)
  {
    var z' := Flip(Advances(Flip(Advances(z, out)), home));
    AllPassed(z.window, rest, passed);
    ThereAndBackAgain(z, out, home);
    assert Thinned(z.window, z.sides.ahead, |out|) == z.sides.ahead;
    ReverseDiscards(z.window, passed);
    SameLine(z, z');
  }

  lemma AllPassed(w: Workspace, rest: seq<Location>, passed: seq<Location>)
    requires AllUnchanged(w, passed)
    ensures PassesAll(w, rest, passed) && Ready(w, rest + passed, |passed|)
  {
    assert forall i | 0 <= i < |passed| :: Unchanged(w, passed[i]);
    NothingThinned(w, rest, passed);
    assert forall i | 0 <= i < |passed| :: Unchanged(w, Reverse(passed)[i]);
    VisitsInTurn(w, rest + passed, |passed|);
  }

  lemma ReverseDiscards(w: Workspace, ls: seq<Location>)
    ensures DiscardsNone(w, Reverse(ls)) <==> DiscardsNone(w, ls)
  {
    assert forall i | 0 <= i < |ls| :: ls[i] == Reverse(ls)[|ls| - 1 - i];
    assert forall i | 0 <= i < |ls| :: Discards(w, ls[i]) <==> Discards(w, Reverse(ls)[|ls| - 1 - i]);
    assert forall i | 0 <= i < |ls| :: Discards(w, Reverse(ls)[i]) <==> Discards(w, ls[|ls| - 1 - i]);
  }

  /** Two zippers with their carets at the same index have one line if and only if their parts agree. */
  lemma SameLine(z: Zipper, z': Zipper)
    requires z.at.Some?
    ensures (Line(z') == Line(z) && |z'.sides.behind| == |z.sides.behind| && z'.at.Some?)
            <==> Shows(z', z.sides.behind, z.at.value, z.sides.ahead)
  {
    var n := |z.sides.behind|;
    if Line(z') == Line(z) && |z'.sides.behind| == n && z'.at.Some? {
      assert Line(z')[..n] == Places(z'.sides.behind) && Line(z)[..n] == Places(z.sides.behind);
      assert Line(z')[n] == PlaceOf(z'.at.value) && Line(z)[n] == PlaceOf(z.at.value);
      assert Line(z')[n + 1..] == Reverse(Places(z'.sides.ahead)) && Line(z)[n + 1..] == Reverse(Places(z.sides.ahead));
      ReverseTwice(Places(z'.sides.ahead));
      ReverseTwice(Places(z.sides.ahead));
    }
  }

  lemma ReverseTwice<T>(s: seq<T>)
    ensures Reverse(Reverse(s)) == s
  {
  }
}
