/** The repository picker: a switch is requested, and acknowledged later by its request number. */
module RepositoryPicker {
  import opened Options

  type RepoId = string
  type TreeId = string

  datatype Scenario = Ready | Error | Offline | Loading | Stale
  datatype Step = Repositories | Worktrees

  /** The tables of the prototype: each repository's preferred worktree, each worktree's repository. */
  datatype Catalog = Catalog(preferred: map<RepoId, TreeId>, repoOf: map<TreeId, RepoId>)

  predicate Consistent(c: Catalog) {
    forall r | r in c.preferred :: c.preferred[r] in c.repoOf && c.repoOf[c.preferred[r]] == r
  }

  const CATALOG: Catalog := Catalog(
    map["ketplus-desktop" := "desktop-main", "ketviet" := "ketviet-pilot", "ketplus-app" := "mobile-main",
        "ketplus" := "cm-main", "ketchat-desktop" := "chat-main", "fusetter" := "fusetter-main"],
    map["desktop-main" := "ketplus-desktop", "desktop-status" := "ketplus-desktop",
        "ketviet-main" := "ketviet", "ketviet-pilot" := "ketviet", "ketviet-phone" := "ketviet",
        "mobile-main" := "ketplus-app", "mobile-questions" := "ketplus-app", "cm-main" := "ketplus",
        "chat-main" := "ketchat-desktop", "fusetter-main" := "fusetter"])

  datatype Target = Target(repo: RepoId, tree: TreeId)
  datatype Pending = Pending(request: nat, target: Target)

  datatype State = State(
    repo: RepoId, tree: TreeId, lastTrees: map<RepoId, TreeId>, scenario: Scenario, step: Step,
    pending: Option<Pending>, failed: Option<Target>, request: nat,
    repoQuery: string, collapsed: seq<RepoId>, receipt: Option<RepoId>)

  // ---------- the operations ----------

  /** An empty id counts as none. */
  predicate Given(tree: Option<TreeId>) {
    tree.Some? && tree.value != ""
  }

  /** The worktree a switch aims at: the one asked for, else the last one used there, else the preferred one. */
  function Wanted(c: Catalog, s: State, repo: RepoId, tree: Option<TreeId>): Option<TreeId> {
    if Given(tree) then tree
    else if repo in s.lastTrees then Some(s.lastTrees[repo])
    else if repo in c.preferred then Some(c.preferred[repo])
    else None
  }

  predicate Accepts(c: Catalog, s: State, repo: RepoId, tree: Option<TreeId>) {
    var wanted := Wanted(c, s, repo, tree);
    && repo in c.preferred && wanted.Some? && wanted.value in c.repoOf && c.repoOf[wanted.value] == repo
    && s.scenario !in {Offline, Loading, Stale}
  }

  function Begin(c: Catalog, s: State, repo: RepoId, tree: Option<TreeId>): (State, Option<nat>) {
    if !Accepts(c, s, repo, tree) then (s, None)
    else
      var request := s.request + 1;
      var target := Target(repo, Wanted(c, s, repo, tree).value);
      (s.(request := request, failed := None, pending := Some(Pending(request, target))), Some(request))
  }

  function Without(ids: seq<RepoId>, id: RepoId): seq<RepoId> {
    if ids == [] then []
    else Without(ids[..|ids| - 1], id) + if ids[|ids| - 1] != id then [ids[|ids| - 1]] else []
  }

  function Complete(s: State, request: nat, successful: bool): (State, bool) {
    if s.pending.None? || s.pending.value.request != request then (s, false)
    else
      var target := s.pending.value.target;
      if !successful then (s.(pending := None, failed := Some(target)), false)
      else
        (s.(pending := None, repo := target.repo, tree := target.tree,
            lastTrees := s.lastTrees[s.repo := s.tree][target.repo := target.tree],
            repoQuery := "", step := Worktrees, collapsed := Without(s.collapsed, target.repo),
            receipt := Some(target.repo)),
         true)
  }

  /** A click on a repository or worktree: choosing what is already open only changes the step. */
  function SwitchTo(c: Catalog, s: State, repo: RepoId, tree: Option<TreeId>): (State, Option<nat>) {
    if repo == s.repo && (!Given(tree) || tree == Some(s.tree)) then (s.(step := Worktrees), None)
    else Begin(c, s, repo, tree)
  }

  function Init(c: Catalog, repo: RepoId, requested: Option<TreeId>, scenario: Scenario): State
    requires repo in c.preferred
  {
    var owned := requested.Some? && requested.value in c.repoOf && c.repoOf[requested.value] == repo;
    State(repo, if owned then requested.value else c.preferred[repo], map[], scenario, Repositories,
          None, if scenario == Error then Some(Target("ketviet", "ketviet-pilot")) else None, 0, "", [], None)
  }

  class Picker {
    const catalog: Catalog
    var repo: RepoId
    var tree: TreeId
    var lastTrees: map<RepoId, TreeId>
    var scenario: Scenario
    var step: Step
    var pending: Option<Pending>
    var failed: Option<Target>
    var request: nat
    var repoQuery: string
    var collapsed: seq<RepoId>
    var receipt: Option<RepoId>

    function View(): State
      reads this
    {
      State(repo, tree, lastTrees, scenario, step, pending, failed, request, repoQuery, collapsed, receipt)
    }

    constructor (catalog: Catalog, repo: RepoId, requested: Option<TreeId>, scenario: Scenario)
      requires repo in catalog.preferred
      ensures this.catalog == catalog && View() == Init(catalog, repo, requested, scenario)
    {
      var owned := requested.Some? && requested.value in catalog.repoOf && catalog.repoOf[requested.value] == repo;
      this.catalog, this.repo, this.scenario := catalog, repo, scenario;
      tree := if owned then requested.value else catalog.preferred[repo];
      lastTrees, step, pending, request := map[], Repositories, None, 0;
      failed := if scenario == Error then Some(Target("ketviet", "ketviet-pilot")) else None;
      repoQuery, collapsed, receipt := "", [], None;
    }

    method BeginSwitch(repoId: RepoId, treeId: Option<TreeId>) returns (accepted: Option<nat>)
      modifies this
      ensures (View(), accepted) == Begin(catalog, old(View()), repoId, treeId)
    {
      var wanted := Wanted(catalog, View(), repoId, treeId);
      if repoId !in catalog.preferred || wanted.None? || wanted.value !in catalog.repoOf
         || catalog.repoOf[wanted.value] != repoId || scenario in {Offline, Loading, Stale} {
        return None;
      }
      request := request + 1;
      failed := None;
      pending := Some(Pending(request, Target(repoId, wanted.value)));
      return Some(request);
    }

    method CompleteSwitch(acknowledged: nat, successful: bool) returns (committed: bool)
      modifies this
      ensures (View(), committed) == Complete(old(View()), acknowledged, successful)
    {
      if pending.None? || pending.value.request != acknowledged {
        return false;
      }
      var target := pending.value.target;
      pending := None;
      if !successful {
        failed := Some(target);
        return false;
      }
      lastTrees := lastTrees[repo := tree];
      repo := target.repo;
      tree := target.tree;
      lastTrees := lastTrees[repo := tree];
      repoQuery := "";
      step := Worktrees;
      collapsed := Without(collapsed, repo);
      receipt := Some(repo);
      return true;
    }
  }

  // ---------- runs ----------

  datatype Action =
    | Click(repo: RepoId, tree: Option<TreeId>)
    | Acknowledge(request: nat, successful: bool)
    | SetScenario(scenario: Scenario)

  /** `visits` is history: every repository and worktree that has been current, oldest first. */
  datatype System = System(s: State, visits: seq<Target>)

  function Start(c: Catalog, repo: RepoId, requested: Option<TreeId>, scenario: Scenario): System
    requires repo in c.preferred
  {
    var s := Init(c, repo, requested, scenario);
    System(s, [Target(s.repo, s.tree)])
  }

  function Next(c: Catalog, w: System, a: Action): System {
    match a
    case Click(repo, tree) => w.(s := SwitchTo(c, w.s, repo, tree).0)
    case Acknowledge(request, successful) =>
      var (s', committed) := Complete(w.s, request, successful);
      System(s', if committed then w.visits + [Target(s'.repo, s'.tree)] else w.visits)
    case SetScenario(scenario) => w.(s := w.s.(scenario := scenario))
  }

  function Run(c: Catalog, w: System, actions: seq<Action>): System {
    if actions == [] then w
    else Next(c, Run(c, w, actions[..|actions| - 1]), actions[|actions| - 1])
  }

  /** The worktree that was current the last time `repo` was. */
  function LastVisit(visits: seq<Target>, repo: RepoId): Option<TreeId> {
    if visits == [] then None
    else
      var last := visits[|visits| - 1];
      if last.repo == repo then Some(last.tree) else LastVisit(visits[..|visits| - 1], repo)
  }

  ghost predicate Inv(c: Catalog, w: System) {
    && w.s.repo in c.preferred && w.s.tree in c.repoOf && c.repoOf[w.s.tree] == w.s.repo
    && w.visits != [] && w.visits[|w.visits| - 1] == Target(w.s.repo, w.s.tree)
    && (w.s.pending.Some? ==>
          var t := w.s.pending.value.target;
          && w.s.pending.value.request == w.s.request
          && t.repo in c.preferred && t.tree in c.repoOf && c.repoOf[t.tree] == t.repo)
    && (forall r | r in w.s.lastTrees :: LastVisit(w.visits, r) == Some(w.s.lastTrees[r]))
    && (forall r | LastVisit(w.visits, r).Some? && r != w.s.repo :: r in w.s.lastTrees)
    && (w.s.repo in w.s.lastTrees || |w.visits| == 1)
  }

  lemma VisitAppended(visits: seq<Target>, t: Target, repo: RepoId)
    ensures LastVisit(visits + [t], repo) == if t.repo == repo then Some(t.tree) else LastVisit(visits, repo)
  {
    assert (visits + [t])[..|visits|] == visits;
  }

  lemma NextKeepsInv(c: Catalog, w: System, a: Action)
    requires Inv(c, w)
    ensures Inv(c, Next(c, w, a))
  {
    if a.Acknowledge? && Complete(w.s, a.request, a.successful).1 {
      var t := w.s.pending.value.target;
      forall r: RepoId
        ensures LastVisit(w.visits + [t], r) == if t.repo == r then Some(t.tree) else LastVisit(w.visits, r)
      {
        VisitAppended(w.visits, t, r);
      }
    }
  }

  lemma {:induction false} ReachableInv(c: Catalog, repo: RepoId, requested: Option<TreeId>, scenario: Scenario,
                                             actions: seq<Action>)
    requires Consistent(c) && repo in c.preferred
    ensures Inv(c, Run(c, Start(c, repo, requested, scenario), actions))
  {
    if actions != [] {
      var w := Start(c, repo, requested, scenario);
      ReachableInv(c, repo, requested, scenario, actions[..|actions| - 1]);
      NextKeepsInv(c, Run(c, w, actions[..|actions| - 1]), actions[|actions| - 1]);
    }
  }

  // ---------- the promises ----------

  /** The current worktree belongs to the current repository, and only the latest request can commit. */
  lemma {:induction false} OnlyTheLatestRequestCommits(c: Catalog, repo: RepoId, requested: Option<TreeId>,
                                                            scenario: Scenario, actions: seq<Action>,
                                                            request: nat, successful: bool)
    requires Consistent(c) && repo in c.preferred
    ensures var s := Run(c, Start(c, repo, requested, scenario), actions).s;
            && s.tree in c.repoOf && c.repoOf[s.tree] == s.repo
            && (request != s.request ==> Complete(s, request, successful) == (s, false))
            && (Complete(s, request, successful).1 ==>
                  s.pending == Some(Pending(request, Target(Complete(s, request, successful).0.repo,
                                                            Complete(s, request, successful).0.tree))))
  {
    ReachableInv(c, repo, requested, scenario, actions);
  }

  /** The number has been given out, and no switch under it is waiting. */
  predicate Settled(s: State, request: nat) {
    request <= s.request && !(s.pending.Some? && s.pending.value.request == request)
  }

  /**
    A number that was answered or superseded never commits again, whatever is clicked and acknowledged
    afterwards; and a new click settles every number given out before it.
   */
  lemma {:induction false} SettledForGood(c: Catalog, w: System, actions: seq<Action>, request: nat, successful: bool)
    requires Settled(w.s, request)
    ensures var s := Run(c, w, actions).s;
            Settled(s, request) && Complete(s, request, successful) == (s, false)
  {
    if actions != [] {
      SettledForGood(c, w, actions[..|actions| - 1], request, successful);
    }
  }

  /** After a second click the first one's acknowledgment is void for good, and the second commits its own target. */
  lemma {:induction false} SupersededRequestIsIgnored(c: Catalog, w: System, first: nat, repo: RepoId,
                                                           tree: Option<TreeId>, later: seq<Action>, successful: bool)
    requires first <= w.s.request && Begin(c, w.s, repo, tree).1.Some?
    ensures var (s, request) := Begin(c, w.s, repo, tree);
            var after := Run(c, w.(s := s), later).s;
            && Complete(after, first, successful) == (after, false)
            && var (committed, done) := Complete(s, request.value, true);
               done && committed.repo == repo && Some(committed.tree) == Wanted(c, w.s, repo, tree)
  {
    var (s, request) := Begin(c, w.s, repo, tree);
    SettledForGood(c, w.(s := s), later, first, successful);
  }

  /**
    Returning to a repository by name restores the worktree last used there; one never visited
    opens at its preferred worktree.
   */
  lemma {:induction false} ReturningRestoresTheTree(c: Catalog, repo: RepoId, requested: Option<TreeId>,
                                                         scenario: Scenario, actions: seq<Action>, to: RepoId)
    requires Consistent(c) && repo in c.preferred
    ensures var w := Run(c, Start(c, repo, requested, scenario), actions);
            var (s', request) := SwitchTo(c, w.s, to, None);
            request.Some? ==>
              && s'.pending.Some? && s'.pending.value.target.repo == to
              && s'.pending.value.target.tree
                 == (if LastVisit(w.visits, to).Some? then LastVisit(w.visits, to).value else c.preferred[to])
  {
    ReachableInv(c, repo, requested, scenario, actions);
  }

  /**
    `beginSwitch` on its own keeps that promise exactly when the repository is not the one the
    conversation started in and has not left, or that one stands at its preferred worktree.
   */
  lemma {:induction false} BeginAloneRestores(c: Catalog, repo: RepoId, requested: Option<TreeId>, scenario: Scenario,
                           actions: seq<Action>, to: RepoId)
    requires Consistent(c) && repo in c.preferred
    ensures var w := Run(c, Start(c, repo, requested, scenario), actions);
            LastVisit(w.visits, to).Some? && Begin(c, w.s, to, None).1.Some? ==>
              (Begin(c, w.s, to, None).0.pending.value.target.tree == LastVisit(w.visits, to).value
               <==> to in w.s.lastTrees || w.s.tree == c.preferred[to])
  {
    ReachableInv(c, repo, requested, scenario, actions);
  }

  /** Opened at a worktree that is not the preferred one, `beginSwitch` to the same repository leaves it. */
  lemma BeginAloneCanForget()
    ensures var s := Init(CATALOG, "ketviet", Some("ketviet-phone"), Ready);
            && s.tree == "ketviet-phone"
            && Begin(CATALOG, s, "ketviet", None).0.pending == Some(Pending(1, Target("ketviet", "ketviet-pilot")))
            && SwitchTo(CATALOG, s, "ketviet", None).1 == None
  {
  }

  lemma CatalogIsConsistent()
    ensures Consistent(CATALOG)
  {
  }

  // ---------- what the operations do ----------

  /** A page opens in the repository asked for, at the worktree asked for when it is one of that repository's. */
  lemma StartMeans(c: Catalog, repo: RepoId, requested: Option<TreeId>, scenario: Scenario)
    requires repo in c.preferred
    ensures var s := Init(c, repo, requested, scenario);
            && s.repo == repo && s.scenario == scenario && s.step == Repositories && s.request == 0
            && s.pending == None && s.lastTrees == map[] && s.receipt == None
            && (s.failed.Some? <==> scenario == Error)
            && (forall tree | requested == Some(tree) && tree in c.repoOf && c.repoOf[tree] == repo :: s.tree == tree)
            && ((forall tree | requested == Some(tree) :: tree !in c.repoOf || c.repoOf[tree] != repo) ==>
                  s.tree == c.preferred[repo])
  {
  }

  /** Clicking what is open shows its worktrees and asks for nothing; any other click asks for a switch. */
  lemma ClickMeans(c: Catalog, s: State, repo: RepoId, tree: Option<TreeId>)
    ensures var open' := repo == s.repo && (tree == None || tree == Some("") || tree == Some(s.tree));
            && (open' ==> SwitchTo(c, s, repo, tree) == (s.(step := Worktrees), None))
            && (!open' ==> SwitchTo(c, s, repo, tree) == Begin(c, s, repo, tree))
  {
  }

  /**
    A switch to a named worktree is accepted exactly when it is one of that repository's and the page
    is neither offline, loading nor stale. It takes the next number, waits, and clears the last failure.
   */
  lemma RequestMeans(c: Catalog, s: State, repo: RepoId, tree: TreeId)
    requires tree != ""
    ensures var (s', accepted) := Begin(c, s, repo, Some(tree));
            var takes := repo in c.preferred && tree in c.repoOf && c.repoOf[tree] == repo
                         && (s.scenario == Ready || s.scenario == Error);
            && (!takes ==> s' == s && accepted == None)
            && (takes ==> accepted == Some(s.request + 1)
                          && s' == s.(request := s.request + 1, failed := None,
                                      pending := Some(Pending(s.request + 1, Target(repo, tree)))))
  {
  }

  lemma {:induction false} WithoutExcludes(ids: seq<RepoId>, id: RepoId)
    ensures id !in Without(ids, id)
  {
    if ids != [] {
      WithoutExcludes(ids[..|ids| - 1], id);
    }
  }

  /** All ids but `id`, in order. */
  lemma WithoutOneMore(ids: seq<RepoId>, last: RepoId, id: RepoId)
    ensures Without(ids + [last], id) == Without(ids, id) + if last == id then [] else [last]
    ensures Without([], id) == []
  {
    assert (ids + [last])[..|ids|] == ids;
  }

  /**
    An answer to the request that waits settles it. A failure is remembered and moves nothing; a
    success makes the target current, remembers where both repositories stand, and opens the
    repository's worktrees.
   */
  lemma AnswerMeans(s: State, target: Target, request: nat, successful: bool)
    requires s.pending == Some(Pending(request, target))
    ensures var (s', committed) := Complete(s, request, successful);
            && committed == successful && s'.pending == None && s'.request == s.request && s'.scenario == s.scenario
            && (!successful ==> s' == s.(pending := None, failed := Some(target)))
            && (successful ==>
                  && s'.repo == target.repo && s'.tree == target.tree && s'.failed == s.failed
                  && s'.repoQuery == "" && s'.step == Worktrees && s'.receipt == Some(target.repo)
                  && s'.lastTrees.Keys == s.lastTrees.Keys + {s.repo, target.repo}
                  && s'.lastTrees[target.repo] == target.tree
                  && (s.repo != target.repo ==> s'.lastTrees[s.repo] == s.tree)
                  && (forall r | r in s.lastTrees && r != s.repo && r != target.repo ::
                        s'.lastTrees[r] == s.lastTrees[r])
                  && target.repo !in s'.collapsed)
  {
    WithoutExcludes(s.collapsed, target.repo);
  }

  /** An answered number is void for good, whether the answer was a success or a failure. */
  lemma {:induction false} AnsweredOnce(c: Catalog, w: System, request: nat, successful: bool,
                                             later: seq<Action>, again: bool)
    requires request <= w.s.request
    ensures var after := Run(c, Next(c, w, Acknowledge(request, successful)), later).s;
            Complete(after, request, again) == (after, false)
  {
    SettledForGood(c, Next(c, w, Acknowledge(request, successful)), later, request, again);
  }
}
