/**
  The workspace file index: a cached list of one folder's files, collected by a background worker
  while the open folder can change.
 */
module FileIndex {
  import opened Options

  type Root = string
  const NO_ROOT: Root := ""
  const MAX_AGE_MS: int := 30 * 1000

  datatype FileList = FileList(relativePaths: seq<string>, truncated: bool)

  /** The window's fields, together with the settings key that remembers full scans. */
  datatype Cache = Cache(
    root: Root, indexing: bool,
    files: FileList, filesRoot: Root, indexedAt: int,
    fullScanRoots: set<Root>, declinedRoots: set<Root>)

  /** What a handler asks of the outside: a worker to start, a question to put to the user. */
  datatype Effect = Effect(collect: Option<Root>, asked: Option<Root>)

  const NOTHING: Effect := Effect(None, None)

  // ---------- the handlers ----------

  predicate Fresh(c: Cache, now: int) {
    c.filesRoot == c.root && now - c.indexedAt < MAX_AGE_MS
  }

  function Refresh(c: Cache, force: bool, now: int): (Cache, Effect) {
    if c.root == NO_ROOT || c.indexing || (Fresh(c, now) && !force) then (c, NOTHING)
    else (c.(indexing := true), Effect(Some(c.root), None))
  }

  /** Asked once per folder: not when it is scanned in full already, nor after a refusal. */
  predicate Asks(c: Cache, root: Root) {
    root !in c.fullScanRoots && root !in c.declinedRoots
  }

  function Ask(c: Cache, root: Root, accept: bool, now: int): (Cache, Effect) {
    if !Asks(c, root) then (c, NOTHING)
    else if !accept then (c.(declinedRoots := c.declinedRoots + {root}), Effect(None, Some(root)))
    else
      var (refreshed, effect) := Refresh(c.(fullScanRoots := c.fullScanRoots + {root}), true, now);
      (refreshed, effect.(asked := Some(root)))
  }

  function Finish(c: Cache, root: Root, files: FileList, accept: bool, now: int): (Cache, Effect) {
    var idle := c.(indexing := false);
    if root != c.root then Refresh(idle, true, now)
    else
      var stored := idle.(files := files, filesRoot := root, indexedAt := now);
      if files.truncated then Ask(stored, root, accept, now) else (stored, NOTHING)
  }

  /** `openFolder` with a path that is a folder; normalised paths are never empty. */
  function Opened(c: Cache, root: Root, now: int): (Cache, Effect)
    requires root != NO_ROOT
  {
    Refresh(c.(root := root, indexedAt := 0), true, now)
  }

  /** What searches and the symbol index are given for `root`. */
  function Cached(c: Cache, root: Root, now: int): FileList {
    if c.filesRoot == root && !c.indexing && c.files.relativePaths != []
       && now - c.indexedAt < MAX_AGE_MS
    then c.files
    else FileList([], false)
  }

  /** The workspace part of the Go to File list. */
  function GoToFileList(c: Cache): seq<string> {
    if c.root != NO_ROOT && c.filesRoot == c.root then c.files.relativePaths else []
  }

  class WorkspaceFileIndex {
    var root: Root
    var indexing: bool
    var files: FileList
    var filesRoot: Root
    var indexedAt: int
    var fullScanRoots: set<Root>
    var declinedRoots: set<Root>

    ghost function View(): Cache
      reads this
    {
      Cache(root, indexing, files, filesRoot, indexedAt, fullScanRoots, declinedRoots)
    }

    constructor (remembered: set<Root>)
      ensures View() == Init(remembered).cache
    {
      root, indexing, files := NO_ROOT, false, FileList([], false);
      filesRoot, indexedAt := NO_ROOT, 0;
      fullScanRoots, declinedRoots := remembered, {};
    }

    method RefreshWorkspaceFileIndex(force: bool, now: int) returns (effect: Effect)
      modifies this`indexing
      ensures (View(), effect) == Refresh(old(View()), force, now)
    {
      if root == NO_ROOT || indexing {
        return NOTHING;
      }
      var fresh' := filesRoot == root && now - indexedAt < MAX_AGE_MS;
      if fresh' && !force {
        return NOTHING;
      }
      indexing := true;
      return Effect(Some(root), None);
    }

    method FinishWorkspaceFileIndex(collectedRoot: Root, list: FileList, accept: bool, now: int)
      returns (effect: Effect)
      modifies this
      ensures (View(), effect) == Finish(old(View()), collectedRoot, list, accept, now)
    {
      indexing := false;
      if collectedRoot != root {
        effect := RefreshWorkspaceFileIndex(true, now);
        return;
      }
      files := list;
      filesRoot := collectedRoot;
      indexedAt := now;
      effect := NOTHING;
      if list.truncated {
        effect := AskAboutFullWorkspaceScan(collectedRoot, accept, now);
      }
    }

    method AskAboutFullWorkspaceScan(folder: Root, accept: bool, now: int) returns (effect: Effect)
      modifies this
      ensures (View(), effect) == Ask(old(View()), folder, accept, now)
    {
      if folder in fullScanRoots || folder in declinedRoots {
        return NOTHING;
      }
      if !accept {
        declinedRoots := declinedRoots + {folder};
        return Effect(None, Some(folder));
      }
      fullScanRoots := fullScanRoots + {folder};
      effect := RefreshWorkspaceFileIndex(true, now);
      effect := effect.(asked := Some(folder));
    }

    method OpenFolder(folder: Root, now: int) returns (effect: Effect)
      requires folder != NO_ROOT
      modifies this
      ensures (View(), effect) == Opened(old(View()), folder, now)
    {
      root := folder;
      indexedAt := 0;
      effect := RefreshWorkspaceFileIndex(true, now);
    }
  }

  // ---------- the whole system ----------

  datatype Completion = Completion(root: Root, files: FileList)

  /** The last list delivered for the folder that was open at that moment. */
  datatype Delivery = Delivery(root: Root, files: FileList, at: int)

  /** History: every list a worker has collected, in order, every question put, the last own list. */
  datatype System = System(
    cache: Cache, workers: seq<Root>, queue: seq<Completion>, clock: int,
    produced: seq<Completion>, asked: seq<Root>, own: Option<Delivery>)

  datatype Action =
    | UserOpens(root: Root)
    | UserRefreshes(force: bool)
    | WorkerCollects(files: FileList)
    | Deliver(accept: bool)
    | Tick(ms: nat)

  function Init(remembered: set<Root>): System {
    System(Cache(NO_ROOT, false, FileList([], false), NO_ROOT, 0, remembered, {}), [], [], MAX_AGE_MS, [], [], None)
  }

  function Listed(o: Option<Root>): seq<Root> {
    if o.Some? then [o.value] else []
  }

  function After(s: System, outcome: (Cache, Effect)): System {
    s.(cache := outcome.0, workers := s.workers + Listed(outcome.1.collect),
       asked := s.asked + Listed(outcome.1.asked))
  }

  function Step(s: System, a: Action): System {
    match a
    case UserOpens(root) => if root == NO_ROOT then s else After(s, Opened(s.cache, root, s.clock))
    case UserRefreshes(force) => After(s, Refresh(s.cache, force, s.clock))
    case WorkerCollects(files) =>
      if s.workers == [] then s
      else
        var c := Completion(s.workers[0], files);
        s.(workers := s.workers[1..], queue := s.queue + [c], produced := s.produced + [c])
    case Deliver(accept) =>
      if s.queue == [] then s
      else
        var c := s.queue[0];
        var own := if c.root == s.cache.root then Some(Delivery(c.root, c.files, s.clock)) else s.own;
        After(s.(queue := s.queue[1..], own := own), Finish(s.cache, c.root, c.files, accept, s.clock))
    case Tick(ms) => s.(clock := s.clock + ms)
  }

  function Run(s: System, actions: seq<Action>): System {
    if actions == [] then s
    else Step(Run(s, actions[..|actions| - 1]), actions[|actions| - 1])
  }

  // ---------- the invariant ----------

  predicate Distinct(roots: seq<Root>) {
    forall i, j | 0 <= i < j < |roots| :: roots[i] != roots[j]
  }

  predicate Inv(s: System) {
    && |s.workers| + |s.queue| == (if s.cache.indexing then 1 else 0)
    && (forall i | 0 <= i < |s.queue| :: s.queue[i] in s.produced)
    && (s.cache.indexing || s.cache.root == NO_ROOT || s.cache.filesRoot == s.cache.root)
    && (s.cache.indexing ==> s.cache.root != NO_ROOT)
    && (s.cache.filesRoot == NO_ROOT
        || Completion(s.cache.filesRoot, s.cache.files) in s.produced)
    && (s.cache.filesRoot == NO_ROOT ==> s.cache.files == FileList([], false))
    && (forall c | c in s.produced :: c.root != NO_ROOT)
    && (forall i | 0 <= i < |s.workers| :: s.workers[i] != NO_ROOT)
    && Distinct(s.asked)
    && (forall i | 0 <= i < |s.asked| ::
          s.asked[i] in s.cache.fullScanRoots || s.asked[i] in s.cache.declinedRoots)
  }

  lemma StepKeepsInv(s: System, a: Action)
    requires Inv(s)
    ensures Inv(Step(s, a))
  {
    match a
    case UserOpens(root) => if root != NO_ROOT { OpenKeepsInv(s, root); }
    case UserRefreshes(force) => RefreshKeepsInv(s, force);
    case WorkerCollects(files) => CollectKeepsInv(s, files);
    case Deliver(accept) => if s.queue != [] { DeliverKeepsInv(s, accept); }
    case Tick(_) =>
  }

  lemma RefreshKeepsInv(s: System, force: bool)
    requires Inv(s)
    ensures Inv(After(s, Refresh(s.cache, force, s.clock)))
  {
    assert s.asked + [] == s.asked;
  }

  lemma OpenKeepsInv(s: System, root: Root)
    requires Inv(s) && root != NO_ROOT
    ensures Inv(After(s, Opened(s.cache, root, s.clock)))
  {
    assert s.asked + [] == s.asked;
  }

  lemma CollectKeepsInv(s: System, files: FileList)
    requires Inv(s)
    ensures Inv(Step(s, WorkerCollects(files)))
  {
  }

  lemma DeliverKeepsInv(s: System, accept: bool)
    requires Inv(s) && s.queue != []
    ensures Inv(Step(s, Deliver(accept)))
  {
    var c := s.queue[0];
    assert c in s.produced && s.queue[1..] == [] && s.workers == [];
    if c.root != s.cache.root {
      ForeignKeepsInv(s, accept);
    } else {
      OwnKeepsInv(s, accept);
    }
  }

  lemma ForeignKeepsInv(s: System, accept: bool)
    requires Inv(s) && s.queue != [] && s.queue[0].root != s.cache.root && s.queue[1..] == [] && s.workers == []
    ensures Inv(Step(s, Deliver(accept)))
  {
    assert s.asked + [] == s.asked;
  }

  lemma OwnKeepsInv(s: System, accept: bool)
    requires Inv(s) && s.queue != [] && s.queue[0].root == s.cache.root && s.queue[1..] == [] && s.workers == []
    requires s.queue[0] in s.produced
    ensures Inv(Step(s, Deliver(accept)))
  {
    if Asks(s.cache, s.cache.root) {
      NotAskedYet(s, s.cache.root);
    }
    assert s.asked + [] == s.asked;
  }

  lemma NotAskedYet(s: System, root: Root)
    requires Inv(s) && Asks(s.cache, root)
    ensures Distinct(s.asked + [root])
  {
    assert root !in s.asked;
  }

  lemma {:induction false} ReachableInv(remembered: set<Root>, actions: seq<Action>)
    ensures Inv(Run(Init(remembered), actions))
  {
    if actions != [] {
      ReachableInv(remembered, actions[..|actions| - 1]);
      StepKeepsInv(Run(Init(remembered), actions[..|actions| - 1]), actions[|actions| - 1]);
    }
  }

  // ---------- the promises ----------

  /**
    At most one collection is under way, the flag says so exactly, and whenever it is off the cache
    belongs to the open folder.
   */
  lemma {:induction false} IndexingFlag(remembered: set<Root>, actions: seq<Action>)
    ensures var s := Run(Init(remembered), actions);
            && (s.cache.indexing <==> |s.workers| + |s.queue| == 1)
            && (!s.cache.indexing <==> |s.workers| + |s.queue| == 0)
            && (s.cache.indexing || s.cache.root == NO_ROOT || s.cache.filesRoot == s.cache.root)
  {
    ReachableInv(remembered, actions);
  }

  /** No folder's list is ever presented as another's: whatever is shown was collected for that folder. */
  lemma {:induction false} NeverAnothersList(remembered: set<Root>, actions: seq<Action>, root: Root)
    ensures var s := Run(Init(remembered), actions);
            && (Cached(s.cache, root, s.clock).relativePaths != [] ==>
                  Completion(root, Cached(s.cache, root, s.clock)) in s.produced)
            && (GoToFileList(s.cache) != [] ==>
                  exists c | c in s.produced ::
                    c.root == s.cache.root && c.files.relativePaths == GoToFileList(s.cache))
            && (s.own.Some? && s.own.value.root == s.cache.root ==>
                  GoToFileList(s.cache) == s.own.value.files.relativePaths)
  {
    ReachableInv(remembered, actions);
    PresentedList(remembered, actions, root);
    var s := Run(Init(remembered), actions);
    if GoToFileList(s.cache) != [] {
      var c := Completion(s.cache.filesRoot, s.cache.files);
      assert c in s.produced && c.root == s.cache.root;
    }
  }

  // ---------- which list is presented ----------

  predicate UnderWay(s: System) {
    s.workers != [] || s.queue != []
  }

  /** The cache against the history. */
  predicate OwnInv(s: System) {
    && (s.own.None? ==> s.cache.filesRoot == NO_ROOT && s.cache.files == FileList([], false))
    && (s.own.Some? ==> s.cache.filesRoot == s.own.value.root && s.cache.files == s.own.value.files
                        && s.own.value.root != NO_ROOT && s.own.value.at <= s.clock
                        && (s.cache.indexing || s.cache.indexedAt == s.own.value.at))
    && (s.queue != [] ==> s.produced != [] && s.produced[|s.produced| - 1] == s.queue[|s.queue| - 1])
    && (s.cache.root != NO_ROOT && !s.cache.indexing ==>
          s.produced != [] && s.produced[|s.produced| - 1] == Completion(s.cache.root, s.cache.files))
  }

  lemma StepKeepsOwn(s: System, a: Action)
    requires Inv(s) && OwnInv(s)
    ensures OwnInv(Step(s, a))
  {
    if a.Deliver? && s.queue != [] {
      assert s.queue == [s.queue[0]];
      DeliverKeepsOwn(s, s.queue[0], a.accept);
    } else {
      OtherKeepsOwn(s, a);
    }
  }

  lemma OtherKeepsOwn(s: System, a: Action)
    requires OwnInv(s) && (!a.Deliver? || s.queue == []) && |s.queue| <= 1 && (s.queue == [] || s.workers == [])
    requires s.cache.indexing <==> |s.workers| + |s.queue| > 0
    ensures OwnInv(Step(s, a))
  {
  }

  lemma DeliverKeepsOwn(s: System, c: Completion, accept: bool)
    requires OwnInv(s) && s.queue == [c] && s.cache.root != NO_ROOT
    ensures OwnInv(Step(s, Deliver(accept)))
  {
  }

  lemma {:induction false} ReachableOwn(remembered: set<Root>, actions: seq<Action>)
    ensures OwnInv(Run(Init(remembered), actions))
  {
    if actions != [] {
      var before := actions[..|actions| - 1];
      ReachableOwn(remembered, before);
      ReachableInv(remembered, before);
      StepKeepsOwn(Run(Init(remembered), before), actions[|actions| - 1]);
    }
  }

  /**
    Go to File is given the last list delivered for the open folder, while and after a collection;
    searches are given it too, while it is under thirty seconds old, not empty, and nothing is
    being collected. With no folder's list they are given none.
   */
  lemma {:induction false} PresentedList(remembered: set<Root>, actions: seq<Action>, root: Root)
    ensures var s := Run(Init(remembered), actions);
            && GoToFileList(s.cache)
               == (if s.own.Some? && s.own.value.root == s.cache.root then s.own.value.files.relativePaths else [])
            && var given := s.own.Some? && s.own.value.root == root && !UnderWay(s)
                            && s.own.value.files.relativePaths != [] && s.clock - s.own.value.at < 30000;
               (root != NO_ROOT ==>
                  Cached(s.cache, root, s.clock) == if given then s.own.value.files else FileList([], false))
  {
    ReachableInv(remembered, actions);
    ReachableOwn(remembered, actions);
  }

  /** No list younger than thirty seconds was delivered for the open folder. */
  predicate Outdated(s: System) {
    s.own.None? || s.own.value.root != s.cache.root || s.clock - s.own.value.at >= 30000
  }

  /** A request collects the open folder when nothing is being collected and it is forced or the list outdated. */
  lemma {:induction false} RequestMeans(remembered: set<Root>, actions: seq<Action>, force: bool)
    ensures var s := Run(Init(remembered), actions);
            var s' := Step(s, UserRefreshes(force));
            && s'.cache.(indexing := s.cache.indexing) == s.cache && s'.asked == s.asked && s'.own == s.own
            && s'.queue == s.queue
            && s'.workers == if s.cache.root != "" && !UnderWay(s) && (force || Outdated(s))
                             then [s.cache.root] else s.workers
  {
    ReachableInv(remembered, actions);
    ReachableOwn(remembered, actions);
  }

  /** Opening a folder makes it the open one and collects it at once, or after the collection under way. */
  lemma {:induction false} OpeningMeans(remembered: set<Root>, actions: seq<Action>, root: Root)
    requires root != ""
    ensures var s := Run(Init(remembered), actions);
            var s' := Step(s, UserOpens(root));
            && s'.cache.root == root && s'.asked == s.asked && s'.own == s.own && s'.queue == s.queue
            && s'.workers == if UnderWay(s) then s.workers else [root]
  {
    ReachableInv(remembered, actions);
  }

  /**
    A list collected for a folder that is no longer open is dropped and the open folder collected.
    The open folder's list is kept, and when it was cut short the question is put unless it was
    answered before: yes remembers the folder and collects it again, no is remembered too.
   */
  lemma {:induction false} DeliveryMeans(remembered: set<Root>, actions: seq<Action>, accept: bool)
    ensures var s := Run(Init(remembered), actions);
            s.queue != [] ==> Delivered(s, Step(s, Deliver(accept)), s.queue[0], accept)
  {
    ReachableInv(remembered, actions);
    var s := Run(Init(remembered), actions);
    if s.queue != [] {
      assert s.queue == [s.queue[0]];
      OnlyDelivery(s, s.queue[0], accept);
    }
  }

  predicate Delivered(s: System, s': System, c: Completion, accept: bool) {
    var root := s.cache.root;
    var foreign := c.root != root;
    var asks := !foreign && c.files.truncated && root !in s.cache.fullScanRoots && root !in s.cache.declinedRoots;
    && s'.cache.root == root && s'.queue == []
    && s'.own == (if foreign then s.own else Some(Delivery(root, c.files, s.clock)))
    && s'.asked == s.asked + (if asks then [root] else [])
    && s'.workers == (if foreign || (asks && accept) then [root] else [])
    && s'.cache.fullScanRoots == s.cache.fullScanRoots + (if asks && accept then {root} else {})
    && s'.cache.declinedRoots == s.cache.declinedRoots + (if asks && !accept then {root} else {})
  }

  lemma OnlyDelivery(s: System, c: Completion, accept: bool)
    requires s.queue == [c] && s.workers == [] && s.cache.root != NO_ROOT
    ensures Delivered(s, Step(s, Deliver(accept)), c, accept)
  {
  }

  lemma {:induction false} ClockIsPastMaxAge(remembered: set<Root>, actions: seq<Action>)
    ensures Run(Init(remembered), actions).clock >= MAX_AGE_MS
  {
    if actions != [] {
      ClockIsPastMaxAge(remembered, actions[..|actions| - 1]);
    }
  }

  /** A folder that is opened again is not served its old list, and the list is collected anew. */
  lemma ReopenedListIsStale(remembered: set<Root>, actions: seq<Action>, root: Root)
    requires root != NO_ROOT
    ensures var s := Step(Run(Init(remembered), actions), UserOpens(root));
            && !Fresh(s.cache, s.clock) && Cached(s.cache, root, s.clock).relativePaths == []
            && s.cache.indexing && s.cache.root == root
  {
    ClockIsPastMaxAge(remembered, actions);
  }

  /** The question, and the rescan it can lead to, come at most once for each folder. */
  lemma {:induction false} AskedOncePerRoot(remembered: set<Root>, actions: seq<Action>)
    ensures Distinct(Run(Init(remembered), actions).asked)
    ensures forall i | 0 <= i < |Run(Init(remembered), actions).asked| ::
              !Asks(Run(Init(remembered), actions).cache, Run(Init(remembered), actions).asked[i])
  {
    ReachableInv(remembered, actions);
  }

  /**
    The race with `openFolder` settles: once the user stops changing folders, three rounds of
    collection and delivery, whatever they find and the user answers, leave the open folder's own
    list in the cache: the one collected last, which Go to File presents.
   */
  lemma {:induction false} Settles(remembered: set<Root>, actions: seq<Action>,
                                        states: seq<System>, rounds: seq<(FileList, bool)>)
    requires |rounds| >= 3 && AreRounds(states, rounds) && states[0] == Run(Init(remembered), actions)
    ensures var s, s' := states[0], states[|rounds|];
            s.cache.root != NO_ROOT ==>
              && !s'.cache.indexing && s'.cache.filesRoot == s.cache.root == s'.cache.root
              && Completion(s.cache.root, s'.cache.files) in s'.produced
              && Presents(s', s.cache.root) && Newest(s, s', rounds, |rounds|)
  {
    ReachableInv(remembered, actions);
    ReachableOwn(remembered, actions);
    if states[0].cache.root != NO_ROOT {
      RoundsSettle(states, rounds, |rounds|);
      RoundsCollect(states, rounds, |rounds|);
      NothingLeft(states[|rounds|]);
    }
  }

  /** Each state comes from the one before it by one round: what is collected, and what the user answers. */
  ghost predicate AreRounds(states: seq<System>, rounds: seq<(FileList, bool)>) {
    && |states| == |rounds| + 1
    && forall i | 0 <= i < |rounds| :: states[i + 1] == Round(states[i], rounds[i].0, rounds[i].1)
  }

  /** What was collected last was collected before the rounds, or in one of the first `n`. */
  predicate Newest(s: System, s': System, rounds: seq<(FileList, bool)>, n: nat)
    requires n <= |rounds|
  {
    s'.produced == s.produced ||
    (s'.produced != [] && exists i | 0 <= i < n :: s'.produced[|s'.produced| - 1].files == rounds[i].0)
  }

  lemma {:induction false} RoundsSettle(states: seq<System>, rounds: seq<(FileList, bool)>, n: nat)
    requires AreRounds(states, rounds) && n <= |rounds|
    requires Inv(states[0]) && OwnInv(states[0]) && states[0].cache.root != NO_ROOT
    ensures Inv(states[n]) && OwnInv(states[n]) && states[n].cache.root == states[0].cache.root
    ensures Backlog(states[n]) == 0 || Backlog(states[n]) + n <= Backlog(states[0])
  {
    if n > 0 {
      RoundsSettle(states, rounds, n - 1);
      RoundSettles(states[n - 1], states[n], rounds[n - 1]);
    }
  }

  lemma {:induction false} RoundsCollect(states: seq<System>, rounds: seq<(FileList, bool)>, n: nat)
    requires AreRounds(states, rounds) && n <= |rounds|
    ensures Newest(states[0], states[n], rounds, n)
  {
    if n > 0 {
      RoundsCollect(states, rounds, n - 1);
      RoundCollects(states[n - 1], rounds[n - 1].0, rounds[n - 1].1);
    }
  }

  lemma RoundSettles(s: System, s': System, round: (FileList, bool))
    requires Inv(s) && OwnInv(s) && s.cache.root != NO_ROOT && s' == Round(s, round.0, round.1)
    ensures Inv(s') && OwnInv(s') && s'.cache.root == s.cache.root
    ensures Backlog(s') == 0 || Backlog(s') < Backlog(s)
  {
    RoundStep(s, round.0, round.1);
  }

  lemma NothingLeft(s: System)
    requires Inv(s) && OwnInv(s) && Backlog(s) == 0 && s.cache.root != NO_ROOT
    ensures !s.cache.indexing && s.cache.filesRoot == s.cache.root && Presents(s, s.cache.root)
  {
  }

  /** The list collected last is `root`'s, and it is the one presented. */
  predicate Presents(s: System, root: Root) {
    s.produced != [] &&
    var last := s.produced[|s.produced| - 1];
    last.root == root && GoToFileList(s.cache) == last.files.relativePaths
  }

  lemma RoundCollects(s: System, files: FileList, accept: bool)
    ensures var s' := Round(s, files, accept);
            s'.produced == s.produced
            || (s'.produced != [] && s'.produced[|s'.produced| - 1].files == files)
  {
  }

  /** The worker at work, if any, finishes, and what is queued is delivered. */
  function Round(s: System, files: FileList, accept: bool): System {
    Step(Step(s, WorkerCollects(files)), Deliver(accept))
  }

  /** The number of rounds that can still be needed. */
  function Backlog(s: System): nat {
    if !s.cache.indexing then 0
    else if s.queue != [] && s.queue[0].root != s.cache.root then 3
    else if s.queue == [] && s.workers != [] && s.workers[0] != s.cache.root then 3
    else if Asks(s.cache, s.cache.root) then 2
    else 1
  }

  lemma RoundStep(s: System, files: FileList, accept: bool)
    requires Inv(s) && OwnInv(s) && s.cache.root != NO_ROOT
    ensures var s' := Round(s, files, accept);
            && Inv(s') && OwnInv(s') && s'.cache.root == s.cache.root
            && (Backlog(s') == 0 || Backlog(s') < Backlog(s))
  {
    var collected := Step(s, WorkerCollects(files));
    CollectHands(s, files);
    StepKeepsOwn(s, WorkerCollects(files));
    StepKeepsOwn(collected, Deliver(accept));
    if collected.queue != [] {
      DeliverKeepsInv(collected, accept);
      DeliverAdvances(collected, accept);
    }
  }

  lemma CollectHands(s: System, files: FileList)
    requires Inv(s)
    ensures var s' := Step(s, WorkerCollects(files));
            Inv(s') && s'.cache == s.cache && Backlog(s') == Backlog(s) && (s.cache.indexing <==> s'.queue != [])
  {
    CollectKeepsInv(s, files);
  }

  lemma DeliverAdvances(s: System, accept: bool)
    requires Inv(s) && s.queue != []
    ensures var s' := Step(s, Deliver(accept));
            s'.cache.root == s.cache.root && (Backlog(s') == 0 || Backlog(s') < Backlog(s))
  {
    assert s.queue[1..] == [] && s.workers == [];
  }
}
