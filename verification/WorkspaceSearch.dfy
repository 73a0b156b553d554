/**
  The background search protocol: a UI thread and one worker share a cancel flag, a FIFO queue of
  posted events and a generation counter.
 */
module WorkspaceSearch {
  import opened Options
  import opened DefinitionLookup

  datatype Summary = Summary(fileCount: nat, matchCount: nat, truncated: bool)
  datatype Status = Blank | Searching | Cancelled | NoResults | Counted(summary: Summary) | Listed(outcome: Outcome)
  datatype Panel = Panel(files: seq<FileResult>, searching: bool, status: Status)
  datatype Request = Request(definition: bool, pattern: Pattern)

  /** The fields of the window the protocol touches; `answer` is the last definition lookup's outcome. */
  datatype Ui = Ui(
    generation: nat, definitionSearch: bool, definitionResults: seq<FileResult>, pattern: Pattern,
    panel: Panel, answer: Option<Outcome>)

  // ---------- what each handler does to the window ----------

  function Cancel(ui: Ui): Ui {
    ui.(generation := ui.generation + 1)
  }

  /** The part of a start that runs once the previous worker is gone. */
  function Begin(ui: Ui, request: Request): Ui {
    var cancelled := Cancel(ui);
    cancelled.(
      generation := cancelled.generation + 1,
      definitionSearch := request.definition,
      definitionResults := [],
      pattern := if request.definition then request.pattern else ui.pattern,
      panel := if request.definition then ui.panel else Panel([], true, Searching))
  }

  function AcceptFile(ui: Ui, generation: nat, file: FileResult): Ui {
    if generation != ui.generation then ui
    else if ui.definitionSearch then ui.(definitionResults := ui.definitionResults + [file])
    else ui.(panel := ui.panel.(files := ui.panel.files + [file]))
  }

  function ShowAnswer(panel: Panel, outcome: Outcome): Panel {
    match outcome
    case NotUsed => panel
    case Open(_, _) => panel
    case ListDeclarations(files) => Panel(files, false, Listed(outcome))
    case ListUses(files) => Panel(files, false, Listed(outcome))
  }

  function Finish(ui: Ui, summary: Summary, cancelled: bool): Ui {
    if ui.definitionSearch then
      var done := ui.(definitionSearch := false, definitionResults := []);
      if cancelled then done
      else
        var outcome := Lookup(ui.definitionResults, ui.pattern);
        done.(panel := ShowAnswer(ui.panel, outcome), answer := Some(outcome))
    else
      ui.(panel := ui.panel.(
            searching := false,
            status := if cancelled then Cancelled
                      else if summary.matchCount == 0 then NoResults
                      else Counted(summary)))
  }

  function AcceptEnd(ui: Ui, generation: nat, summary: Summary, cancelled: bool): Ui {
    if generation == ui.generation then Finish(ui, summary, cancelled) else ui
  }

  function PressCancel(ui: Ui): Ui {
    var cancelled := Cancel(ui);
    cancelled.(panel := ui.panel.(searching := false, status := Cancelled))
  }

  /** The window's own fields, updated in place by the handlers. */
  class SearchController {
    var generation: nat
    var definitionSearch: bool
    var definitionResults: seq<FileResult>
    var definitionPattern: Pattern
    var panel: Panel
    var answer: Option<Outcome>

    ghost function View(): Ui
      reads this
    {
      Ui(generation, definitionSearch, definitionResults, definitionPattern, panel, answer)
    }

    constructor ()
      ensures View() == Init().ui
    {
      generation, definitionSearch, definitionResults := 0, false, [];
      definitionPattern, panel, answer := None, Panel([], false, Blank), None;
    }

    /** `refused` covers a missing folder and an invalid expression. */
    method StartWorkspaceSearch(request: Request, refused: bool)
      modifies this
      ensures View() == if refused then old(View()) else Begin(old(View()), request)
    {
      if refused {
        return;
      }
      CancelWorkspaceSearch();
      if request.definition {
        definitionPattern := request.pattern;
      }
      definitionSearch := request.definition;
      definitionResults := [];
      if !request.definition {
        panel := Panel([], true, Searching);
      }
      generation := generation + 1;
    }

    method CancelWorkspaceSearch()
      modifies this`generation
      ensures View() == Cancel(old(View()))
    {
      generation := generation + 1;
    }

    method CancelRequested()
      modifies this
      ensures View() == PressCancel(old(View()))
    {
      CancelWorkspaceSearch();
      panel := panel.(searching := false, status := Cancelled);
    }

    method OnFile(workerGeneration: nat, file: FileResult)
      modifies this
      ensures View() == AcceptFile(old(View()), workerGeneration, file)
    {
      if workerGeneration != generation {
        return;
      }
      if definitionSearch {
        definitionResults := definitionResults + [file];
      } else {
        panel := panel.(files := panel.files + [file]);
      }
    }

    method OnEnd(workerGeneration: nat, summary: Summary, wasCancelled: bool)
      modifies this
      ensures View() == AcceptEnd(old(View()), workerGeneration, summary, wasCancelled)
    {
      if workerGeneration == generation {
        FinishWorkspaceSearch(summary, wasCancelled);
      }
    }

    method FinishWorkspaceSearch(summary: Summary, cancelled: bool)
      modifies this
      ensures View() == Finish(old(View()), summary, cancelled)
      ensures old(definitionSearch) && !cancelled ==>
                LookupShown(old(panel), panel, old(definitionResults), old(definitionPattern))
    {
      LookupMeaning(definitionResults, definitionPattern);
      if definitionSearch {
        definitionSearch := false;
        if !cancelled {
          var outcome := FinishDefinitionSearch(definitionResults, definitionPattern);
          panel := ShowAnswer(panel, outcome);
          answer := Some(outcome);
        }
        definitionResults := [];
        return;
      }
      panel := panel.(searching := false);
      if cancelled {
        panel := panel.(status := Cancelled);
      } else if summary.matchCount == 0 {
        panel := panel.(status := NoResults);
      } else {
        panel := panel.(status := Counted(summary));
      }
    }
  }

  // ---------- the whole system ----------

  datatype Event =
    | FoundFile(generation: nat, file: FileResult)
    | Ended(generation: nat, summary: Summary, wasCancelled: bool)

  /** A worker between two loads of the flag: what it has decided to post next. */
  datatype Stage = Scanning | HasFile(file: FileResult) | HasSummary(summary: Summary, wasCancelled: bool)
  datatype Worker = Stopped | Running(generation: nat, flag: bool, stage: Stage)

  /** `QThread::wait` blocks the UI thread, so nothing is delivered meanwhile. */
  datatype Wait = NotWaiting | ToCancel | ToStart(request: Request)

  /**
    History of the last start, which the program itself does not keep; `panelBefore` is the panel
    it found, `summary` the one its own end brought.
   */
  datatype Log = Log(
    generation: nat, request: Request, posted: seq<FileResult>, accepted: seq<FileResult>,
    suppressed: nat, finished: bool, panelBefore: Panel, summary: Option<Summary>)

  datatype System = System(ui: Ui, wait: Wait, worker: Worker, queue: seq<Event>, log: Log)

  datatype Action =
    | Start(request: Request, refused: bool)
    | CancelButton
    | WaitReturns
    | WorkerFinds(file: FileResult)
    | WorkerDone(summary: Summary)
    | WorkerPosts
    | Deliver

  function Init(): System {
    System(
      Ui(0, false, [], None, Panel([], false, Blank), None), NotWaiting, Stopped, [],
      Log(0, Request(false, None), [], [], 0, true, Panel([], false, Blank), None))
  }

  function RaiseFlag(w: Worker): Worker {
    if w.Running? then w.(flag := true) else w
  }

  /** One step; an action that is not possible in `s` leaves `s` as it is. */
  function Step(s: System, a: Action): System {
    match a
    case Start(request, refused) =>
      if s.wait != NotWaiting || refused then s
      else s.(wait := ToStart(request), worker := RaiseFlag(s.worker))
    case CancelButton =>
      if s.wait != NotWaiting then s
      else s.(wait := ToCancel, worker := RaiseFlag(s.worker))
    case WaitReturns =>
      if s.wait == NotWaiting || s.worker.Running? then s
      else if s.wait.ToCancel? then s.(wait := NotWaiting, ui := PressCancel(s.ui))
      else
        var ui := Begin(s.ui, s.wait.request);
        System(ui, NotWaiting, Running(ui.generation, false, Scanning), s.queue,
               Log(ui.generation, s.wait.request, [], [], 0, false, s.ui.panel, None))
    case WorkerFinds(file) =>
      if !s.worker.Running? || !s.worker.stage.Scanning? then s
      else if s.worker.flag then s.(log := s.log.(suppressed := s.log.suppressed + 1))
      else s.(worker := s.worker.(stage := HasFile(file)))
    case WorkerDone(summary) =>
      if !s.worker.Running? || !s.worker.stage.Scanning? then s
      else s.(worker := s.worker.(stage := HasSummary(summary, s.worker.flag)))
    case WorkerPosts =>
      if !s.worker.Running? then s
      else
        var g := s.worker.generation;
        match s.worker.stage {
          case Scanning => s
          case HasFile(file) =>
            s.(worker := s.worker.(stage := Scanning), queue := s.queue + [FoundFile(g, file)],
               log := s.log.(posted := s.log.posted + [file]))
          case HasSummary(summary, c) =>
            s.(worker := Stopped, queue := s.queue + [Ended(g, summary, c)])
        }
    case Deliver =>
      if s.wait != NotWaiting || s.queue == [] then s
      else
        var rest := s.(queue := s.queue[1..]);
        var current := s.queue[0].generation == s.ui.generation;
        match s.queue[0]
        case FoundFile(g, file) =>
          rest.(ui := AcceptFile(s.ui, g, file),
                log := if current then s.log.(accepted := s.log.accepted + [file]) else s.log)
        case Ended(g, summary, c) =>
          rest.(ui := AcceptEnd(s.ui, g, summary, c),
                log := if current then s.log.(finished := true, summary := Some(summary)) else s.log)
  }

  function Run(s: System, actions: seq<Action>): System {
    if actions == [] then s
    else Step(Run(s, actions[..|actions| - 1]), actions[|actions| - 1])
  }

  // ---------- the invariant ----------

  /** The last start has not been cancelled or replaced. */
  ghost predicate Live(s: System) {
    s.ui.generation == s.log.generation
  }

  /** The files of one generation still waiting in the queue, in order. */
  function Waiting(queue: seq<Event>, generation: nat): seq<FileResult> {
    if queue == [] then []
    else
      var head := queue[0];
      (if head.FoundFile? && head.generation == generation then [head.file] else [])
      + Waiting(queue[1..], generation)
  }

  /** Where the results of the last start go. */
  function Sink(s: System): seq<FileResult> {
    if s.log.request.definition then s.ui.definitionResults else s.ui.panel.files
  }

  ghost predicate WorkerInv(s: System) {
    s.worker.Running? ==>
      && s.worker.generation == s.log.generation && Live(s) && !s.log.finished
      && s.worker.flag == (s.wait != NotWaiting)
      && (s.worker.stage.HasSummary? && s.worker.stage.wasCancelled ==> s.worker.flag)
  }

  /** Only the last start's end event can follow its file events, and it is always the newest event. */
  ghost predicate QueueInv(s: System) {
    && (forall i | 0 <= i < |s.queue| :: s.queue[i].generation <= s.log.generation)
    && (forall i | 0 <= i < |s.queue| && s.queue[i].Ended? && s.queue[i].generation == s.log.generation ::
          i == |s.queue| - 1 && s.worker.Stopped? && !s.log.finished
          && (s.queue[i].wasCancelled && Live(s) ==> s.wait != NotWaiting))
    && (s.log.finished ==> forall i | 0 <= i < |s.queue| :: s.queue[i].generation < s.log.generation)
  }

  ghost predicate EndIsQueued(s: System) {
    s.queue != [] && var last := s.queue[|s.queue| - 1];
    last.Ended? && last.generation == s.log.generation
  }

  ghost predicate LogInv(s: System) {
    && s.log.generation <= s.ui.generation
    && s.log.accepted <= s.log.posted
    && (Live(s) ==> s.log.posted == s.log.accepted + Waiting(s.queue, s.log.generation))
    && (Live(s) && s.log.suppressed > 0 ==> s.wait != NotWaiting)
    && (Live(s) && !s.log.finished ==>
          && s.ui.definitionSearch == s.log.request.definition && Sink(s) == s.log.accepted
          && (s.log.request.definition ==> s.ui.pattern == s.log.request.pattern)
          && (!s.log.request.definition ==> s.ui.panel.searching)
          && (s.worker.Running? || EndIsQueued(s)))
    && (Live(s) && s.log.finished ==> !s.ui.definitionSearch)
    && (Live(s) && s.log.finished && !s.log.request.definition ==> s.ui.panel.files == s.log.posted)
    && (s.log.finished ==> s.log.posted == s.log.accepted && s.log.suppressed == 0)
    && (Live(s) && s.log.finished && s.log.request.definition ==>
          s.ui.answer == Some(Lookup(s.log.posted, s.log.request.pattern)))
  }

  ghost predicate Inv(s: System) {
    WorkerInv(s) && QueueInv(s) && LogInv(s)
  }

  lemma {:induction false} WaitingAppend(queue: seq<Event>, e: Event, generation: nat)
    ensures Waiting(queue + [e], generation)
            == Waiting(queue, generation)
               + if e.FoundFile? && e.generation == generation then [e.file] else []
  {
    if queue == [] {
      assert queue + [e] == [e];
    } else {
      WaitingAppend(queue[1..], e, generation);
      assert (queue + [e])[1..] == queue[1..] + [e];
    }
  }

  lemma {:induction false} NoneWaiting(queue: seq<Event>, generation: nat)
    requires forall i | 0 <= i < |queue| :: queue[i].generation != generation || queue[i].Ended?
    ensures Waiting(queue, generation) == []
  {
    if queue != [] {
      NoneWaiting(queue[1..], generation);
    }
  }

  lemma WorkerStepKeepsInv(s: System, a: Action)
    requires Inv(s) && (a.WorkerFinds? || a.WorkerDone? || a.WorkerPosts?)
    ensures Inv(Step(s, a))
  {
    if s.worker.Running? && a.WorkerPosts? {
      match s.worker.stage
      case Scanning =>
      case HasFile(file) => PostFileKeepsInv(s, file);
      case HasSummary(summary, c) => PostEndKeepsInv(s, summary, c);
    } else {
      ScanKeepsInv(s, a);
    }
  }

  lemma ScanKeepsInv(s: System, a: Action)
    requires Inv(s) && (a.WorkerFinds? || a.WorkerDone? || (a.WorkerPosts? && !s.worker.Running?))
    ensures Inv(Step(s, a))
  {
  }

  lemma PostFileKeepsInv(s: System, file: FileResult)
    requires Inv(s) && s.worker.Running? && s.worker.stage == HasFile(file)
    ensures Inv(Step(s, WorkerPosts))
  {
    var e := FoundFile(s.worker.generation, file);
    WaitingAppend(s.queue, e, s.log.generation);
    assert forall i | 0 <= i < |s.queue| :: (s.queue + [e])[i] == s.queue[i];
  }

  lemma PostEndKeepsInv(s: System, summary: Summary, c: bool)
    requires Inv(s) && s.worker.Running? && s.worker.stage == HasSummary(summary, c)
    ensures Inv(Step(s, WorkerPosts))
  {
    var e := Ended(s.worker.generation, summary, c);
    WaitingAppend(s.queue, e, s.log.generation);
    assert forall i | 0 <= i < |s.queue| :: (s.queue + [e])[i] == s.queue[i];
  }

  lemma UiStepKeepsInv(s: System, a: Action)
    requires Inv(s) && (a.Start? || a.CancelButton? || a.WaitReturns?)
    ensures Inv(Step(s, a))
  {
    if a.WaitReturns? {
      if s.wait.ToStart? && s.worker.Stopped? {
        NewStartKeepsInv(s);
      } else {
        CancelKeepsInv(s);
      }
    } else {
      RaisingKeepsInv(s, a);
    }
  }

  lemma RaisingKeepsInv(s: System, a: Action)
    requires Inv(s) && (a.Start? || a.CancelButton?)
    ensures Inv(Step(s, a))
  {
  }

  lemma CancelKeepsInv(s: System)
    requires Inv(s) && !(s.wait.ToStart? && s.worker.Stopped?)
    ensures Inv(Step(s, WaitReturns))
  {
  }

  lemma NewStartKeepsInv(s: System)
    requires Inv(s) && s.wait.ToStart? && s.worker.Stopped?
    ensures Inv(Step(s, WaitReturns))
  {
    var s' := Step(s, WaitReturns);
    assert s'.log.generation == s.ui.generation + 2;
    NoneWaiting(s.queue, s'.log.generation);
  }

  /** What taking the head off the queue does to the queue's own part of the invariant. */
  lemma QueueTail(s: System)
    requires Inv(s) && s.queue != []
    ensures var rest := s.queue[1..];
            && (forall i | 0 <= i < |rest| :: rest[i] == s.queue[i + 1])
            && (s.queue[0].Ended? && s.queue[0].generation == s.log.generation ==> rest == [])
            && (s.queue[0].generation != s.log.generation ==> (EndIsQueued(s) <==> EndIsQueued(s.(queue := rest))))
            && (s.queue[0].FoundFile? ==> (EndIsQueued(s) <==> EndIsQueued(s.(queue := rest))))
  {
    var rest := s.queue[1..];
    if rest != [] {
      assert rest[|rest| - 1] == s.queue[|s.queue| - 1];
    }
  }

  lemma StaleKeepsInv(s: System)
    requires Inv(s) && s.wait == NotWaiting && s.queue != []
    requires s.queue[0].generation != s.ui.generation
    ensures Step(s, Deliver) == s.(queue := s.queue[1..]) && Inv(Step(s, Deliver))
  {
    QueueTail(s);
  }

  lemma FileKeepsInv(s: System)
    requires Inv(s) && s.wait == NotWaiting && s.queue != []
    requires s.queue[0].FoundFile? && s.queue[0].generation == s.ui.generation
    ensures Inv(Step(s, Deliver))
  {
    QueueTail(s);
    var s' := Step(s, Deliver);
    var file := s.queue[0].file;
    PrefixMoves(s.log.posted, s.log.accepted, file, Waiting(s'.queue, s.log.generation));
    FileKeepsQueueInv(s);
  }

  lemma PrefixMoves<T>(posted: seq<T>, accepted: seq<T>, next: T, rest: seq<T>)
    requires posted == accepted + ([next] + rest)
    ensures posted == (accepted + [next]) + rest && accepted + [next] <= posted
  {
  }

  lemma FileKeepsQueueInv(s: System)
    requires Inv(s) && s.wait == NotWaiting && s.queue != []
    requires s.queue[0].FoundFile? && s.queue[0].generation == s.ui.generation
    ensures WorkerInv(Step(s, Deliver)) && QueueInv(Step(s, Deliver))
  {
    QueueTail(s);
  }

  lemma EndKeepsInv(s: System)
    requires Inv(s) && s.wait == NotWaiting && s.queue != []
    requires s.queue[0].Ended? && s.queue[0].generation == s.ui.generation
    ensures !s.queue[0].wasCancelled && Inv(Step(s, Deliver))
  {
    QueueTail(s);
    assert Waiting(s.queue, s.log.generation) == [];
  }

  lemma DeliverKeepsInv(s: System)
    requires Inv(s) && s.wait == NotWaiting && s.queue != []
    ensures Inv(Step(s, Deliver))
    ensures s.queue[0].Ended? && s.queue[0].generation == s.ui.generation ==> !s.queue[0].wasCancelled
  {
    if s.queue[0].generation != s.ui.generation {
      StaleKeepsInv(s);
    } else if s.queue[0].FoundFile? {
      FileKeepsInv(s);
    } else {
      EndKeepsInv(s);
    }
  }

  lemma {:induction false} ReachableInv(actions: seq<Action>)
    ensures Inv(Run(Init(), actions))
  {
    if actions != [] {
      var before, a := Run(Init(), actions[..|actions| - 1]), actions[|actions| - 1];
      ReachableInv(actions[..|actions| - 1]);
      if a.Deliver? {
        if before.wait == NotWaiting && before.queue != [] {
          DeliverKeepsInv(before);
        }
      } else if a.Start? || a.CancelButton? || a.WaitReturns? {
        UiStepKeepsInv(before, a);
      } else {
        WorkerStepKeepsInv(before, a);
      }
    }
  }

  // ---------- the promises ----------

  /**
    Over every interleaving: what the last start has shown is an in-order prefix of what its own
    worker posted, in the sink that start chose; once its end is delivered it is all of it and
    nothing was suppressed.
   */
  lemma {:induction false} DeliveredFiles(actions: seq<Action>)
    ensures var s := Run(Init(), actions);
            && s.log.accepted <= s.log.posted
            && (Live(s) && !s.log.finished ==> Sink(s) == s.log.accepted)
            && (s.log.finished ==> s.log.accepted == s.log.posted && s.log.suppressed == 0)
            && (Live(s) && s.log.finished && s.log.request.definition ==>
                  s.ui.answer == Some(Lookup(s.log.posted, s.log.request.pattern)))
            && (Live(s) && s.log.finished && !s.log.request.definition ==> s.ui.panel.files == s.log.posted)
  {
    ReachableInv(actions);
  }

  /** An event that reaches its handler either is stale, and changes only the queue, or was not cancelled. */
  lemma {:induction false} DeliveredEvents(actions: seq<Action>)
    ensures var s := Run(Init(), actions);
            s.wait == NotWaiting && s.queue != [] ==>
            if s.queue[0].generation != s.log.generation || !Live(s)
            then Step(s, Deliver) == s.(queue := s.queue[1..])
            else s.queue[0].Ended? ==>
                   !s.queue[0].wasCancelled && s.log.accepted == s.log.posted && !s.log.finished
  {
    ReachableInv(actions);
    var s := Run(Init(), actions);
    if s.wait == NotWaiting && s.queue != [] {
      DeliverKeepsInv(s);
      if s.queue[0].Ended? && s.queue[0].generation == s.log.generation && Live(s) {
        NoneWaiting(s.queue, s.log.generation);
      }
    }
  }

  /** Nothing is lost: when everything has come to rest, a search that was not cancelled has ended. */
  lemma {:induction false} RestMeansFinished(actions: seq<Action>)
    ensures var s := Run(Init(), actions);
            s.worker.Stopped? && s.queue == [] && Live(s) ==> s.log.finished
  {
    ReachableInv(actions);
  }

  // ---------- what the panel shows ----------

  /** A lookup that is over, by what it found: several declarations, uses only, or nothing to list. */
  ghost predicate LookupShown(before: Panel, panel: Panel, results: seq<FileResult>, pattern: Pattern) {
    var uses, found := Hits(results), Declarations(Hits(results), pattern);
    if |found| >= 2 then
      Hits(panel.files) == found && NoneEmpty(panel.files) && !panel.searching
      && panel.status == Listed(ListDeclarations(panel.files))
    else if found == [] && uses != [] then
      panel == Panel(results, false, Listed(ListUses(results)))
    else panel == before
  }

  /** A listed search that is over shows every file, and counts its own summary unless it found nothing. */
  ghost predicate SearchShown(panel: Panel, log: Log) {
    && panel.files == log.posted && !panel.searching && log.summary.Some?
    && (log.summary.value.matchCount == 0 ==> panel.status == NoResults)
    && (log.summary.value.matchCount > 0 ==> panel.status == Counted(log.summary.value))
  }

  ghost predicate PanelShows(s: System) {
    var panel, log := s.ui.panel, s.log;
    if !Live(s) then
      && !panel.searching && panel.status == Cancelled
      && (!log.request.definition ==> panel.files == log.accepted)
    else if !log.finished then
      panel == if log.request.definition then log.panelBefore else Panel(log.accepted, true, Searching)
    else if log.request.definition then LookupShown(log.panelBefore, panel, log.posted, log.request.pattern)
    else log.generation == 0 || SearchShown(panel, log)
  }

  lemma FinishShows(s: System)
    requires Inv(s) && PanelShows(s) && s.wait == NotWaiting && s.queue != []
    requires s.queue[0].Ended? && s.queue[0].generation == s.ui.generation
    ensures PanelShows(Step(s, Deliver))
  {
    EndKeepsInv(s);
    NoneWaiting(s.queue, s.log.generation);
    if s.ui.definitionSearch {
      LookupMeaning(s.ui.definitionResults, s.ui.pattern);
    }
  }

  lemma PanelStep(s: System, a: Action)
    requires Inv(s) && PanelShows(s)
    ensures PanelShows(Step(s, a))
  {
    if a.Deliver? && s.wait == NotWaiting && s.queue != [] {
      if s.queue[0].generation == s.ui.generation && s.queue[0].Ended? {
        FinishShows(s);
      } else {
        DeliverKeepsInv(s);
      }
    }
  }

  /**
    Over every run: a lookup lists the declarations when it found several and every use when it
    found no declaration, and else leaves the panel as it found it; a listed search shows its files
    as they come and in the end its own count; cancelling keeps the files and says so.
   */
  lemma {:induction false} PanelTellsTheSearch(actions: seq<Action>)
    ensures PanelShows(Run(Init(), actions))
  {
    if actions != [] {
      var before := actions[..|actions| - 1];
      PanelTellsTheSearch(before);
      ReachableInv(before);
      PanelStep(Run(Init(), before), actions[|actions| - 1]);
    }
  }

  // ---------- the panel's own indicator ----------

  /** The panel claims to be searching exactly while a listed search is under way. */
  ghost predicate IndicatorAccurate(s: System) {
    s.ui.panel.searching <==> Live(s) && !s.log.finished && !s.log.request.definition
  }

  ghost predicate DefinitionReplacesSearch(s: System, a: Action) {
    a.WaitReturns? && s.wait.ToStart? && s.worker.Stopped? && s.wait.request.definition
    && s.ui.panel.searching
  }

  /**
    Every step keeps the indicator accurate except one: a definition lookup that replaces a listed
    search does not clear it.
   */
  lemma {:induction false} IndicatorStep(actions: seq<Action>, a: Action)
    requires IndicatorAccurate(Run(Init(), actions))
    ensures var s := Run(Init(), actions);
            IndicatorAccurate(Step(s, a)) <==> !DefinitionReplacesSearch(s, a)
  {
    ReachableInv(actions);
    var s := Run(Init(), actions);
    if a.Deliver? && s.wait == NotWaiting && s.queue != [] {
      DeliverKeepsInv(s);
    }
  }

  /** The steps that put the indicator right again: a listed start, the cancel button, a lookup with a list. */
  ghost predicate PutsRight(s: System, a: Action) {
    || (a.WaitReturns? && s.worker.Stopped? && (s.wait.ToCancel? || (s.wait.ToStart? && !s.wait.request.definition)))
    || (a.Deliver? && s.wait == NotWaiting
        && s.queue != [] && s.queue[0].Ended? && s.queue[0].generation == s.ui.generation
        && s.ui.definitionSearch && Lists(Lookup(s.ui.definitionResults, s.ui.pattern)))
  }

  predicate Lists(o: Outcome) {
    o.ListDeclarations? || o.ListUses?
  }

  /** A lookup has replaced a listed search, and none of those steps has followed. */
  ghost predicate Orphaned(actions: seq<Action>) {
    actions != [] &&
    var before, a := actions[..|actions| - 1], actions[|actions| - 1];
    var s := Run(Init(), before);
    DefinitionReplacesSearch(s, a) || (Orphaned(before) && !PutsRight(s, a))
  }

  lemma {:induction false} OrphanStep(s: System, a: Action, orphaned: bool)
    requires Inv(s) && (IndicatorAccurate(s) <==> !orphaned) && (orphaned ==> s.ui.panel.searching && !Listing(s))
    ensures var orphaned' := DefinitionReplacesSearch(s, a) || (orphaned && !PutsRight(s, a));
            && (IndicatorAccurate(Step(s, a)) <==> !orphaned')
            && (orphaned' ==> Step(s, a).ui.panel.searching && !Listing(Step(s, a)))
  {
    if a.Deliver? && s.wait == NotWaiting && s.queue != [] {
      DeliverKeepsInv(s);
    }
  }

  ghost predicate Listing(s: System) {
    Live(s) && !s.log.finished && !s.log.request.definition
  }

  /** Over every run the indicator is wrong exactly while such a replacement has not been put right. */
  lemma {:induction false} IndicatorIsWrongWhen(actions: seq<Action>)
    ensures var s := Run(Init(), actions);
            && (IndicatorAccurate(s) <==> !Orphaned(actions))
            && (Orphaned(actions) ==> s.ui.panel.searching && !Listing(s))
  {
    if actions != [] {
      var before := actions[..|actions| - 1];
      IndicatorIsWrongWhen(before);
      ReachableInv(before);
      OrphanStep(Run(Init(), before), actions[|actions| - 1], Orphaned(before));
    }
  }

  /** The indicator can stay on after everything has ended: search, look up an unused name, wait. */
  lemma IndicatorCanStick()
    ensures exists actions ::
              var s := Run(Init(), actions);
              s.worker.Stopped? && s.queue == [] && s.wait == NotWaiting && s.log.finished
              && s.ui.panel.searching
  {
    var listed, lookup := Request(false, None), Request(true, None);
    var run, s := [], Init();
    run, s := Extend(run, s, Start(listed, false));
    run, s := SearchToTheEnd(run, s);
    run, s := Extend(run, s, Start(lookup, false));
    run, s := SearchToTheEnd(run, s);
    run, s := Extend(run, s, Deliver);
    run, s := Extend(run, s, Deliver);
    assert Run(Init(), run).ui.panel.searching;
  }

  lemma Extend(run: seq<Action>, s: System, a: Action) returns (run': seq<Action>, s': System)
    requires Run(Init(), run) == s
    ensures run' == run + [a] && s' == Step(s, a) && Run(Init(), run') == s'
  {
    run', s' := run + [a], Step(s, a);
    assert run'[..|run|] == run;
  }

  /** The worker is started, finds nothing and posts its end. */
  lemma SearchToTheEnd(run: seq<Action>, s: System) returns (run': seq<Action>, s': System)
    requires Run(Init(), run) == s
    requires s.wait.ToStart? && s.worker.Stopped?
    ensures Run(Init(), run') == s'
    ensures var ui := Begin(s.ui, s.wait.request);
            s' == System(ui, NotWaiting, Stopped,
                         s.queue + [Ended(ui.generation, Summary(0, 0, false), false)],
                         Log(ui.generation, s.wait.request, [], [], 0, false, s.ui.panel, None))
  {
    run', s' := Extend(run, s, WaitReturns);
    run', s' := Extend(run', s', WorkerDone(Summary(0, 0, false)));
    run', s' := Extend(run', s', WorkerPosts);
  }
}
