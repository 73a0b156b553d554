/** Tab hibernation: least recently used tabs are released until two budgets are met. */
module TabPolicy {
  import opened Options

  const MAXIMUM_RESIDENT_TABS: nat := 12
  const RESIDENT_TEXT_BUDGET: nat := 64 * 1024 * 1024

  /** A tab holds an editor or something else, such as a diff view. */
  datatype Tab =
    | Other
    | Editor(bytes: nat, lastActivated: nat, untitled: bool, modified: bool, hibernated: bool, shownInSplit: bool)

  predicate Resident(t: Tab) {
    t.Editor? && !t.hibernated
  }

  function BytesOf(t: Tab): nat {
    if Resident(t) then t.bytes else 0
  }

  function ResidentCount(tabs: seq<Tab>): nat {
    if tabs == [] then 0
    else ResidentCount(tabs[..|tabs| - 1]) + if Resident(tabs[|tabs| - 1]) then 1 else 0
  }

  function ResidentBytes(tabs: seq<Tab>): nat {
    if tabs == [] then 0
    else ResidentBytes(tabs[..|tabs| - 1]) + BytesOf(tabs[|tabs| - 1])
  }

  predicate WithinBudgets(tabs: seq<Tab>) {
    ResidentCount(tabs) <= MAXIMUM_RESIDENT_TABS && ResidentBytes(tabs) <= RESIDENT_TEXT_BUDGET
  }

  predicate IsCandidate(tabs: seq<Tab>, current: Option<nat>, i: nat) {
    i < |tabs| && Resident(tabs[i]) && current != Some(i) && !tabs[i].shownInSplit
    && !tabs[i].untitled && !tabs[i].modified
  }

  function Hibernated(t: Tab): Tab
    requires Resident(t)
  {
    t.(bytes := 0, hibernated := true)
  }

  // ---------- eviction by its meaning ----------

  /** Distinct editor tabs, least recently activated first. */
  predicate Sorted(tabs: seq<Tab>, order: seq<nat>) {
    && (forall i | 0 <= i < |order| :: order[i] < |tabs| && tabs[order[i]].Editor?)
    && (forall i, j | 0 <= i < j < |order| ::
          order[i] != order[j] && tabs[order[i]].lastActivated <= tabs[order[j]].lastActivated)
  }

  predicate AllCandidates(tabs: seq<Tab>, current: Option<nat>, chosen: seq<nat>) {
    forall i | 0 <= i < |chosen| :: IsCandidate(tabs, current, chosen[i])
  }

  /** The candidates, each once, least recently activated first; ties stand in any order. */
  ghost predicate IsEvictionOrder(tabs: seq<Tab>, current: Option<nat>, order: seq<nat>) {
    && Sorted(tabs, order) && AllCandidates(tabs, current, order)
    && forall i: nat | IsCandidate(tabs, current, i) :: i in order
  }

  /** `tabs` once every tab of `chosen` that does not refuse is hibernated. */
  function Release(tabs: seq<Tab>, chosen: seq<nat>, refuses: set<nat>): (after: seq<Tab>)
    ensures |after| == |tabs|
  {
    if chosen == [] then tabs
    else
      var last := chosen[|chosen| - 1];
      var before := Release(tabs, chosen[..|chosen| - 1], refuses);
      if last in refuses || last >= |before| || !Resident(before[last]) then before
      else before[last := Hibernated(before[last])]
  }

  lemma {:induction false} ReleaseAt(tabs: seq<Tab>, chosen: seq<nat>, refuses: set<nat>, i: nat)
    requires i < |tabs|
    ensures Release(tabs, chosen, refuses)[i]
            == if i in chosen && i !in refuses && Resident(tabs[i]) then Hibernated(tabs[i]) else tabs[i]
  {
    if chosen != [] {
      var n := |chosen| - 1;
      assert chosen == chosen[..n] + [chosen[n]];
      ReleaseAt(tabs, chosen[..n], refuses, i);
    }
  }

  predicate PrefixFits(tabs: seq<Tab>, order: seq<nat>, refuses: set<nat>, n: nat)
    requires n <= |order|
  {
    WithinBudgets(Release(tabs, order[..n], refuses))
  }

  /** The length of the shortest prefix of `order`, no shorter than `from`, whose release meets both budgets. */
  function EvictionLength(tabs: seq<Tab>, order: seq<nat>, refuses: set<nat>, from: nat): (n: nat)
    requires from <= |order|
    ensures from <= n <= |order|
    decreases |order| - from
  {
    if from == |order| || PrefixFits(tabs, order, refuses, from) then from
    else EvictionLength(tabs, order, refuses, from + 1)
  }

  lemma {:induction false} EvictionLengthIsLeast(tabs: seq<Tab>, order: seq<nat>, refuses: set<nat>, from: nat)
    requires from <= |order|
    ensures var n := EvictionLength(tabs, order, refuses, from);
            && (n < |order| ==> PrefixFits(tabs, order, refuses, n))
            && (forall k: nat | from <= k < n :: !PrefixFits(tabs, order, refuses, k))
    decreases |order| - from
  {
    if from < |order| && !PrefixFits(tabs, order, refuses, from) {
      EvictionLengthIsLeast(tabs, order, refuses, from + 1);
    }
  }

  function Evicted(tabs: seq<Tab>, order: seq<nat>, refuses: set<nat>): seq<nat> {
    order[..EvictionLength(tabs, order, refuses, 0)]
  }

  // ---------- sums ----------

  lemma {:induction false} HibernateSums(tabs: seq<Tab>, i: nat)
    requires i < |tabs| && Resident(tabs[i])
    ensures ResidentCount(tabs[i := Hibernated(tabs[i])]) == ResidentCount(tabs) - 1
    ensures ResidentBytes(tabs[i := Hibernated(tabs[i])]) == ResidentBytes(tabs) - tabs[i].bytes
  {
    var n := |tabs| - 1;
    var after := tabs[i := Hibernated(tabs[i])];
    if i == n {
      assert after[..n] == tabs[..n];
    } else {
      HibernateSums(tabs[..n], i);
      assert after[..n] == tabs[..n][i := Hibernated(tabs[i])];
    }
  }

  /** In a list of distinct residents the next one is still resident, and its release is one update. */
  lemma ReleaseOneMore(tabs: seq<Tab>, current: Option<nat>, order: seq<nat>, refuses: set<nat>, k: nat)
    requires Sorted(tabs, order) && AllCandidates(tabs, current, order) && k < |order|
    ensures var before, last := Release(tabs, order[..k], refuses), order[k];
            && last < |tabs| && Resident(before[last]) && before[last] == tabs[last]
            && Release(tabs, order[..k + 1], refuses)
               == if last in refuses then before else before[last := Hibernated(before[last])]
  {
    assert order[..k + 1][..k] == order[..k];
    assert IsCandidate(tabs, current, order[k]);
    assert order[k] !in order[..k];
    ReleaseAt(tabs, order[..k], refuses, order[k]);
  }

  lemma InsertedIsSorted(tabs: seq<Tab>, order: seq<nat>, at: nat, c: nat)
    requires Sorted(tabs, order) && c < |tabs| && tabs[c].Editor? && c !in order && at <= |order|
    requires forall i | 0 <= i < at :: tabs[order[i]].lastActivated <= tabs[c].lastActivated
    requires at < |order| ==> tabs[c].lastActivated <= tabs[order[at]].lastActivated
    ensures Sorted(tabs, order[..at] + [c] + order[at..])
    ensures forall x :: x in order[..at] + [c] + order[at..] <==> x in order || x == c
  {
    var longer := order[..at] + [c] + order[at..];
    assert order == order[..at] + order[at..];
    SortedFrom(tabs, order, at, c);
    forall i, j | 0 <= i < j < |longer|
      ensures longer[i] != longer[j] && tabs[longer[i]].lastActivated <= tabs[longer[j]].lastActivated
    {
      assert longer[i] == if i < at then order[i] else if i == at then c else order[i - 1];
      assert longer[j] == if j < at then order[j] else if j == at then c else order[j - 1];
    }
  }

  lemma SortedFrom(tabs: seq<Tab>, order: seq<nat>, at: nat, c: nat)
    requires Sorted(tabs, order) && c < |tabs| && tabs[c].Editor? && at <= |order|
    requires at < |order| ==> tabs[c].lastActivated <= tabs[order[at]].lastActivated
    ensures forall i | at <= i < |order| :: tabs[c].lastActivated <= tabs[order[i]].lastActivated
  {
  }

  // ---------- the window's tabs ----------

  class TabStrip {
    var tabs: seq<Tab>
    var current: Option<nat>
    var accessSequence: nat

    constructor ()
      ensures tabs == [] && current == None && accessSequence == 0
    {
      tabs, current, accessSequence := [], None, 0;
    }

    /** The first loop: what is resident, and which tabs may be released. */
    method Survey() returns (count: nat, bytes: nat, candidates: seq<nat>)
      ensures count == ResidentCount(tabs) && bytes == ResidentBytes(tabs)
      ensures forall i | 0 <= i < |candidates| :: IsCandidate(tabs, current, candidates[i])
      ensures forall i: nat | IsCandidate(tabs, current, i) :: i in candidates
      ensures forall i, j | 0 <= i < j < |candidates| :: candidates[i] != candidates[j]
    {
      count, bytes, candidates := 0, 0, [];
      for index := 0 to |tabs|
        invariant count == ResidentCount(tabs[..index]) && bytes == ResidentBytes(tabs[..index])
        invariant forall i | 0 <= i < |candidates| :: candidates[i] < index && IsCandidate(tabs, current, candidates[i])
        invariant forall i: nat | i < index && IsCandidate(tabs, current, i) :: i in candidates
        invariant forall i, j | 0 <= i < j < |candidates| :: candidates[i] != candidates[j]
      {
        assert tabs[..index + 1][..index] == tabs[..index];
        var tab := tabs[index];
        if !Resident(tab) {
          continue;
        }
        count := count + 1;
        bytes := bytes + tab.bytes;
        if current != Some(index) && !tab.shownInSplit && !tab.untitled && !tab.modified {
          candidates := candidates + [index];
        }
      }
      assert tabs[..|tabs|] == tabs;
    }

    /** Any sort by `lastActivated`; the source does not ask for a stable one. */
    method SortByLastActivated(candidates: seq<nat>) returns (order: seq<nat>)
      requires forall i | 0 <= i < |candidates| :: candidates[i] < |tabs| && tabs[candidates[i]].Editor?
      requires forall i, j | 0 <= i < j < |candidates| :: candidates[i] != candidates[j]
      ensures Sorted(tabs, order) && forall x :: x in order <==> x in candidates
    {
      order := [];
      for n := 0 to |candidates|
        invariant Sorted(tabs, order) && forall x :: x in order <==> x in candidates[..n]
      {
        assert candidates[..n + 1] == candidates[..n] + [candidates[n]];
        order := Insert(order, candidates[n]);
      }
      assert candidates[..|candidates|] == candidates;
    }

    method Insert(order: seq<nat>, c: nat) returns (longer: seq<nat>)
      requires Sorted(tabs, order) && c < |tabs| && tabs[c].Editor? && c !in order
      ensures Sorted(tabs, longer) && forall x :: x in longer <==> x in order || x == c
    {
      var at := 0;
      while at < |order| && tabs[order[at]].lastActivated <= tabs[c].lastActivated
        invariant at <= |order|
        invariant forall i | 0 <= i < at :: tabs[order[i]].lastActivated <= tabs[c].lastActivated
      {
        at := at + 1;
      }
      longer := order[..at] + [c] + order[at..];
      InsertedIsSorted(tabs, order, at, c);
    }

    /**
      `refuses` are the tabs whose `hibernate` reports failure. The counters the loop keeps are the
      real sums at every step, which is why it stops exactly where the budgets are met.
     */
    method EnforceTabResourcePolicy(refuses: set<nat>) returns (order: seq<nat>)
      modifies this`tabs
      ensures IsEvictionOrder(old(tabs), current, order)
      ensures tabs == Release(old(tabs), Evicted(old(tabs), order, refuses), refuses)
    {
      var count, bytes, candidates := Survey();
      order := SortByLastActivated(candidates);
      ghost var was := tabs;
      assert IsEvictionOrder(was, current, order) by {
        assert forall i | 0 <= i < |order| :: order[i] in candidates;
      }
      for k := 0 to |order|
        invariant tabs == Release(was, order[..k], refuses)
        invariant count == ResidentCount(tabs) && bytes == ResidentBytes(tabs)
        invariant EvictionLength(was, order, refuses, 0) == EvictionLength(was, order, refuses, k)
      {
        if count <= MAXIMUM_RESIDENT_TABS && bytes <= RESIDENT_TEXT_BUDGET {
          assert PrefixFits(was, order, refuses, k);
          return;
        }
        ReleaseOneMore(was, current, order, refuses, k);
        var released := tabs[order[k]].bytes;
        if order[k] !in refuses {
          HibernateSums(tabs, order[k]);
          tabs := tabs[order[k] := Hibernated(tabs[order[k]])];
          count := count - 1;
          bytes := bytes - released;
        }
      }
    }

    /** `restored` is the text length read back from disk, None when that fails. */
    method ActivateCurrentTab(restored: Option<nat>, refuses: set<nat>)
      requires current.Some? ==> current.value < |tabs|
      requires Stamped(tabs, accessSequence)
      modifies this
      ensures current == old(current) && Stamped(tabs, accessSequence)
      ensures if !Activates(old(tabs), current, restored)
              then tabs == old(tabs) && accessSequence == old(accessSequence)
              else accessSequence == old(accessSequence) + 1 &&
                   var now := Activated(old(tabs), current.value, restored, accessSequence);
                   exists order :: IsEvictionOrder(now, current, order)
                                   && tabs == Release(now, Evicted(now, order, refuses), refuses)
      ensures Activates(old(tabs), current, restored) ==>
                |tabs| == |old(tabs)| && IsNewestUsed(tabs, current.value, accessSequence)
    {
      if current.None? || tabs[current.value].Other? {
        return;
      }
      var tab := tabs[current.value];
      if tab.hibernated {
        if restored.None? {
          return;
        }
        tab := tab.(hibernated := false, bytes := restored.value);
      }
      accessSequence := accessSequence + 1;
      tabs := tabs[current.value := tab.(lastActivated := accessSequence)];
      ghost var now := tabs;
      var order := EnforceTabResourcePolicy(refuses);
      assert now == Activated(old(tabs), current.value, restored, accessSequence);
      assert IsEvictionOrder(now, current, order);
      ReleaseKeepsStamps(now, Evicted(now, order, refuses), refuses, accessSequence);
      ReleaseAt(now, Evicted(now, order, refuses), refuses, current.value);
    }
  }

  /** The tab's stamp is later than every other tab's. */
  predicate IsNewestUsed(tabs: seq<Tab>, i: nat, stamp: nat) {
    && i < |tabs| && tabs[i].Editor? && tabs[i].lastActivated == stamp
    && forall j | 0 <= j < |tabs| && j != i && tabs[j].Editor? :: tabs[j].lastActivated < stamp
  }

  /** The tabs after the current one is brought back, if need be, and stamped. */
  function Activated(tabs: seq<Tab>, i: nat, restored: Option<nat>, stamp: nat): seq<Tab>
    requires Activates(tabs, Some(i), restored)
  {
    var tab := tabs[i];
    var awake := if tab.hibernated then tab.(hibernated := false, bytes := restored.value) else tab;
    tabs[i := awake.(lastActivated := stamp)]
  }

  lemma ReleaseKeepsStamps(tabs: seq<Tab>, chosen: seq<nat>, refuses: set<nat>, now: nat)
    requires Stamped(tabs, now)
    ensures Stamped(Release(tabs, chosen, refuses), now)
  {
    var after := Release(tabs, chosen, refuses);
    forall i | 0 <= i < |tabs|
      ensures after[i].Editor? == tabs[i].Editor?
      ensures tabs[i].Editor? ==> after[i].lastActivated == tabs[i].lastActivated
    {
      ReleaseAt(tabs, chosen, refuses, i);
    }
  }

  predicate Activates(tabs: seq<Tab>, current: Option<nat>, restored: Option<nat>) {
    current.Some? && current.value < |tabs| && tabs[current.value].Editor?
    && (tabs[current.value].hibernated ==> restored.Some?)
  }

  /** Activation numbers are in the past, and no two activated tabs share one. */
  predicate Stamped(tabs: seq<Tab>, now: nat) {
    && (forall i | 0 <= i < |tabs| && tabs[i].Editor? :: tabs[i].lastActivated <= now)
    && (forall i, j | 0 <= i < j < |tabs| && tabs[i].Editor? && tabs[j].Editor? ::
          tabs[i].lastActivated > 0 ==> tabs[i].lastActivated != tabs[j].lastActivated)
  }

  // ---------- the promises ----------

  /**
    Eviction is least-recently-used and minimal: the tabs released are the shortest prefix of the
    order that meets both budgets, or every candidate when none does; no released tab was used
    more recently than a candidate that stays.
   */
  lemma {:induction false} EvictionIsMinimalLru(tabs: seq<Tab>, current: Option<nat>, order: seq<nat>)
    requires IsEvictionOrder(tabs, current, order)
    ensures var gone := Evicted(tabs, order, {});
            var after := Release(tabs, gone, {});
            && gone <= order && (WithinBudgets(after) || gone == order)
            && (forall k: nat | k < |gone| :: !PrefixFits(tabs, order, {}, k))
            && (forall i | 0 <= i < |gone| :: after[gone[i]] == Hibernated(tabs[gone[i]]))
            && (forall i, j: nat | 0 <= i < |gone| && IsCandidate(tabs, current, j) && j !in gone ::
                  tabs[gone[i]].lastActivated <= tabs[j].lastActivated)
  {
    var gone := Evicted(tabs, order, {});
    var after := Release(tabs, gone, {});
    EvictionLengthIsLeast(tabs, order, {}, 0);
    forall i | 0 <= i < |gone|
      ensures after[gone[i]] == Hibernated(tabs[gone[i]])
    {
      assert IsCandidate(tabs, current, order[i]);
      ReleaseAt(tabs, gone, {}, gone[i]);
    }
    forall i, j: nat | 0 <= i < |gone| && IsCandidate(tabs, current, j) && j !in gone
      ensures tabs[gone[i]].lastActivated <= tabs[j].lastActivated
    {
      var b :| 0 <= b < |order| && order[b] == j;
      assert b >= |gone|;
    }
  }

  /** Whatever refuses, only candidates change: never the active tab, a split source, or unsaved text. */
  lemma {:induction false} OnlyCandidatesChange(tabs: seq<Tab>, current: Option<nat>, order: seq<nat>,
                                                     refuses: set<nat>, i: nat)
    requires IsEvictionOrder(tabs, current, order) && i < |tabs|
    ensures var after := Release(tabs, Evicted(tabs, order, refuses), refuses);
            after[i] == tabs[i] || (IsCandidate(tabs, current, i) && i !in refuses && after[i] == Hibernated(tabs[i]))
  {
    var gone := Evicted(tabs, order, refuses);
    ReleaseAt(tabs, gone, refuses, i);
    if i in gone {
      var a :| 0 <= a < |gone| && gone[a] == i;
      assert IsCandidate(tabs, current, order[a]);
    }
  }

  /** When nothing refuses, enforcing the policy again releases nothing, whichever order it sorts into. */
  lemma {:induction false} EnforcingTwiceIsEnforcingOnce(tabs: seq<Tab>, current: Option<nat>,
                                                              order: seq<nat>, again: seq<nat>)
    requires IsEvictionOrder(tabs, current, order)
    requires IsEvictionOrder(Release(tabs, Evicted(tabs, order, {}), {}), current, again)
    ensures Evicted(Release(tabs, Evicted(tabs, order, {}), {}), again, {}) == []
  {
    var gone := Evicted(tabs, order, {});
    var after := Release(tabs, gone, {});
    EvictionIsMinimalLru(tabs, current, order);
    assert again[..0] == [];
    var first := if again == [] then 0 else again[0];
    assert again == [] || IsCandidate(after, current, first);
    if !WithinBudgets(after) {
      forall i: nat | i < |tabs|
        ensures !IsCandidate(after, current, i)
      {
        ReleaseAt(tabs, order, {}, i);
        assert IsCandidate(tabs, current, i) ==> i in order;
      }
    }
  }

  /** Once every candidate has been activated, the sort has no choice: the order is unique. */
  lemma {:induction false} OrderIsUnique(tabs: seq<Tab>, now: nat, current: Option<nat>, a: seq<nat>, b: seq<nat>)
    requires Stamped(tabs, now)
    requires IsEvictionOrder(tabs, current, a) && IsEvictionOrder(tabs, current, b)
    requires forall i: nat | IsCandidate(tabs, current, i) :: tabs[i].lastActivated > 0
    ensures a == b
  {
    SortedPrefixes(tabs, now, current, a, b, |a|);
    SortedPrefixes(tabs, now, current, b, a, |b|);
    assert a[..|a|] == a && b[..|b|] == b;
  }

  /** If `a` and `b` agree up to `m`, the stamp at `a[m]` is the least of what is left of `b` as well. */
  lemma LeastLeft(tabs: seq<Tab>, current: Option<nat>, a: seq<nat>, b: seq<nat>, m: nat)
    requires IsEvictionOrder(tabs, current, a) && IsEvictionOrder(tabs, current, b)
    requires m < |a| && m <= |b| && a[..m] == b[..m]
    ensures m < |b| && tabs[b[m]].lastActivated <= tabs[a[m]].lastActivated
  {
    assert IsCandidate(tabs, current, a[m]);
    var p :| 0 <= p < |b| && b[p] == a[m];
    assert forall i | 0 <= i < m :: a[i] == a[..m][i] == b[..m][i] == b[i];
  }

  lemma {:induction false} SortedPrefixes(tabs: seq<Tab>, now: nat, current: Option<nat>,
                                               a: seq<nat>, b: seq<nat>, n: nat)
    requires Stamped(tabs, now) && n <= |a|
    requires IsEvictionOrder(tabs, current, a) && IsEvictionOrder(tabs, current, b)
    requires forall i: nat | IsCandidate(tabs, current, i) :: tabs[i].lastActivated > 0
    ensures n <= |b| && a[..n] == b[..n]
  {
    if n > 0 {
      var m := n - 1;
      SortedPrefixes(tabs, now, current, a, b, m);
      LeastLeft(tabs, current, a, b, m);
      LeastLeft(tabs, current, b, a, m);
      assert IsCandidate(tabs, current, a[m]) && IsCandidate(tabs, current, b[m]);
      assert a[m] == b[m];
      assert a[..n] == a[..m] + [a[m]] && b[..n] == b[..m] + [b[m]];
    }
  }

  // ---------- what the counters and the candidates are ----------

  /** The count is the number of editor tabs not hibernated; the bytes are added up over the same tabs. */
  lemma {:induction false} CountersMean(a: seq<Tab>, b: seq<Tab>)
    ensures ResidentCount(a) == |set i | 0 <= i < |a| && a[i].Editor? && !a[i].hibernated|
    ensures ResidentBytes(a + b) == ResidentBytes(a) + ResidentBytes(b)
    ensures |b| == 1 ==> ResidentBytes(b) == if b[0].Editor? && !b[0].hibernated then b[0].bytes else 0
  {
    CountIsCardinality(a);
    BytesAdd(a, b);
  }

  lemma {:induction false} CountIsCardinality(tabs: seq<Tab>)
    ensures ResidentCount(tabs) == |set i | 0 <= i < |tabs| && tabs[i].Editor? && !tabs[i].hibernated|
  {
    if tabs != [] {
      var n := |tabs| - 1;
      CountIsCardinality(tabs[..n]);
      var fewer := set i | 0 <= i < n && tabs[..n][i].Editor? && !tabs[..n][i].hibernated;
      var all := set i | 0 <= i < |tabs| && tabs[i].Editor? && !tabs[i].hibernated;
      assert all == if Resident(tabs[n]) then fewer + {n} else fewer;
    }
  }

  lemma {:induction false} BytesAdd(a: seq<Tab>, b: seq<Tab>)
    ensures ResidentBytes(a + b) == ResidentBytes(a) + ResidentBytes(b)
  {
    if b == [] {
      assert a + b == a;
    } else {
      BytesAdd(a, b[..|b| - 1]);
      assert (a + b)[..|a + b| - 1] == a + b[..|b| - 1];
    }
  }

  /** A tab in the background whose text is in memory and on disk, and which no split shows. */
  predicate Idle(t: Tab) {
    t.Editor? && !t.hibernated && !t.shownInSplit && !t.untitled && !t.modified
  }

  /**
    Releasing gives up the text of background tabs and nothing else, and it ends with twelve tabs
    and 64 MiB or less, or with every background tab released.
   */
  lemma {:induction false} ReleaseMeans(tabs: seq<Tab>, current: Option<nat>, order: seq<nat>)
    requires IsEvictionOrder(tabs, current, order)
    ensures var after := Release(tabs, Evicted(tabs, order, {}), {});
            && (forall i: nat | i < |tabs| && after[i] != tabs[i] ::
                  current != Some(i) && Idle(tabs[i]) && after[i] == tabs[i].(bytes := 0, hibernated := true))
            && ((ResidentCount(after) <= 12 && ResidentBytes(after) <= 67108864)
                || forall i: nat | i < |tabs| && current != Some(i) :: !Idle(after[i]))
  {
    var gone := Evicted(tabs, order, {});
    var after := Release(tabs, gone, {});
    EvictionIsMinimalLru(tabs, current, order);
    forall i: nat | i < |tabs| && after[i] != tabs[i]
      ensures current != Some(i) && Idle(tabs[i]) && after[i] == tabs[i].(bytes := 0, hibernated := true)
    {
      OnlyCandidatesChange(tabs, current, order, {}, i);
    }
    if gone == order {
      forall i: nat | i < |tabs| && current != Some(i)
        ensures !Idle(after[i])
      {
        ReleaseAt(tabs, gone, {}, i);
        assert IsCandidate(tabs, current, i) <==> Idle(tabs[i]);
      }
    }
  }

  // ---------- runs: the stamps are the order of use ----------

  /** Activating wakes the tab with the text read back and stamps it later than every other tab. */
  lemma ActivationIsNewest(tabs: seq<Tab>, i: nat, restored: Option<nat>, now: nat)
    requires Stamped(tabs, now)
    requires i < |tabs| && tabs[i].Editor? && (tabs[i].hibernated ==> restored.Some?)
    ensures var after := Activated(tabs, i, restored, now + 1);
            && |after| == |tabs| && (forall j | 0 <= j < |tabs| && j != i :: after[j] == tabs[j])
            && after[i].Editor? && Resident(after[i])
            && (forall j | 0 <= j < |tabs| && j != i && tabs[j].Editor? ::
                  after[j].lastActivated < after[i].lastActivated)
            && after[i].bytes == (if tabs[i].hibernated then restored.value else tabs[i].bytes)
            && after[i].untitled == tabs[i].untitled && after[i].modified == tabs[i].modified
            && after[i].shownInSplit == tabs[i].shownInSplit
  {
  }

  datatype Strip = Strip(tabs: seq<Tab>, now: nat)

  /** `order` and `refuses` are what the sort and `hibernate` make of one enforcement. */
  datatype Happening =
    | Edited(tabs: seq<Tab>)
    | Used(i: nat, restored: Option<nat>, order: seq<nat>, refuses: set<nat>)

  /** Editing, saving and splitting change no stamp; new tabs stand at the end and were never used. */
  predicate KeepsStamps(tabs: seq<Tab>, tabs': seq<Tab>) {
    && |tabs| <= |tabs'|
    && (forall i | 0 <= i < |tabs| :: tabs'[i].Editor? == tabs[i].Editor?
          && (tabs[i].Editor? ==> tabs'[i].lastActivated == tabs[i].lastActivated))
    && (forall i | |tabs| <= i < |tabs'| && tabs'[i].Editor? :: tabs'[i].lastActivated == 0)
  }

  /** One step; what cannot happen in `s` leaves it as it is. */
  ghost function Step(s: Strip, a: Happening): Strip {
    match a
    case Edited(tabs) => if KeepsStamps(s.tabs, tabs) then s.(tabs := tabs) else s
    case Used(i, restored, order, refuses) =>
      if !CanUse(s, a) then s
      else
        var now := Activated(s.tabs, i, restored, s.now + 1);
        Strip(Release(now, Evicted(now, order, refuses), refuses), s.now + 1)
  }

  ghost predicate CanUse(s: Strip, a: Happening) {
    a.Used? && Activates(s.tabs, Some(a.i), a.restored)
    && IsEvictionOrder(Activated(s.tabs, a.i, a.restored, s.now + 1), Some(a.i), a.order)
  }

  ghost function Run(happenings: seq<Happening>): Strip {
    if happenings == [] then Strip([], 0)
    else Step(Run(happenings[..|happenings| - 1]), happenings[|happenings| - 1])
  }

  /** The tabs used along the run, oldest first. */
  ghost function Uses(happenings: seq<Happening>): seq<nat> {
    if happenings == [] then []
    else
      var before, a := happenings[..|happenings| - 1], happenings[|happenings| - 1];
      Uses(before) + if CanUse(Run(before), a) then [a.i] else []
  }

  /** One more than the place of the last use of `i`, zero when it was never used. */
  function LastUse(uses: seq<nat>, i: nat): nat {
    if uses == [] then 0
    else if uses[|uses| - 1] == i then |uses|
    else LastUse(uses[..|uses| - 1], i)
  }

  /** Over every run the stamp of each tab tells its last use. */
  lemma {:induction false} StampsAreUses(happenings: seq<Happening>)
    ensures var s := Run(happenings);
            && s.now == |Uses(happenings)|
            && (forall i: nat | i < |Uses(happenings)| :: Uses(happenings)[i] < |s.tabs|)
            && forall i: nat | i < |s.tabs| && s.tabs[i].Editor? ::
                 s.tabs[i].lastActivated == LastUse(Uses(happenings), i)
  {
    if happenings != [] {
      var before, a := happenings[..|happenings| - 1], happenings[|happenings| - 1];
      StampsAreUses(before);
      var s, s' := Run(before), Run(happenings);
      if CanUse(s, a) {
        var now := Activated(s.tabs, a.i, a.restored, s.now + 1);
        assert Uses(happenings) == Uses(before) + [a.i];
        assert Uses(happenings)[..|Uses(before)|] == Uses(before);
        forall i: nat | i < |s'.tabs| && s'.tabs[i].Editor?
          ensures s'.tabs[i].lastActivated == LastUse(Uses(happenings), i)
        {
          ReleaseAt(now, Evicted(now, a.order, a.refuses), a.refuses, i);
        }
      } else {
        assert Uses(happenings) == Uses(before);
        NewTabsAreUnused(Uses(before), |s.tabs|);
      }
    }
  }

  lemma {:induction false} NewTabsAreUnused(uses: seq<nat>, n: nat)
    requires forall k | 0 <= k < |uses| :: uses[k] < n
    ensures forall i: nat | n <= i :: LastUse(uses, i) == 0
  {
    if uses != [] {
      NewTabsAreUnused(uses[..|uses| - 1], n);
    }
  }

  /**
    Over every run, least recently used means what it says: no released tab was used later than a
    background tab that stays, and the tab left last is the last one in line.
   */
  lemma {:induction false} EvictionFollowsUse(happenings: seq<Happening>, current: Option<nat>, order: seq<nat>)
    requires IsEvictionOrder(Run(happenings).tabs, current, order)
    ensures var tabs, uses := Run(happenings).tabs, Uses(happenings);
            var gone := Evicted(tabs, order, {});
            && (forall i, j: nat | 0 <= i < |gone| && j < |tabs| && current != Some(j) && Idle(tabs[j]) && j !in gone ::
                  LastUse(uses, gone[i]) <= LastUse(uses, j))
            && (|uses| >= 2 && current == Some(uses[|uses| - 1]) && uses[|uses| - 2] in order ==>
                  order[|order| - 1] == uses[|uses| - 2])
  {
    var tabs, uses := Run(happenings).tabs, Uses(happenings);
    StampsAreUses(happenings);
    ReleasedWereUsedEarlier(tabs, uses, current, order);
    if |uses| >= 2 && current == Some(uses[|uses| - 1]) && uses[|uses| - 2] in order {
      LeftLastIsLast(tabs, uses, current, order);
    }
  }

  ghost predicate TellsUse(tabs: seq<Tab>, uses: seq<nat>) {
    forall i: nat | i < |tabs| && tabs[i].Editor? :: tabs[i].lastActivated == LastUse(uses, i)
  }

  lemma ReleasedWereUsedEarlier(tabs: seq<Tab>, uses: seq<nat>, current: Option<nat>, order: seq<nat>)
    requires IsEvictionOrder(tabs, current, order) && TellsUse(tabs, uses)
    ensures var gone := Evicted(tabs, order, {});
            forall i, j: nat | 0 <= i < |gone| && j < |tabs| && current != Some(j) && Idle(tabs[j]) && j !in gone ::
              LastUse(uses, gone[i]) <= LastUse(uses, j)
  {
    var gone := Evicted(tabs, order, {});
    EvictionIsMinimalLru(tabs, current, order);
    forall i, j: nat | 0 <= i < |gone| && j < |tabs| && current != Some(j) && Idle(tabs[j]) && j !in gone
      ensures LastUse(uses, gone[i]) <= LastUse(uses, j)
    {
      assert IsCandidate(tabs, current, j) && IsCandidate(tabs, current, order[i]);
      assert tabs[gone[i]].lastActivated <= tabs[j].lastActivated;
    }
  }

  lemma LeftLastIsLast(tabs: seq<Tab>, uses: seq<nat>, current: Option<nat>, order: seq<nat>)
    requires IsEvictionOrder(tabs, current, order)
    requires TellsUse(tabs, uses)
    requires |uses| >= 2 && current == Some(uses[|uses| - 1]) && uses[|uses| - 2] in order
    ensures order[|order| - 1] == uses[|uses| - 2]
  {
    var left := uses[|uses| - 2];
    var k :| 0 <= k < |order| && order[k] == left;
    var last := order[|order| - 1];
    assert IsCandidate(tabs, current, order[k]) && IsCandidate(tabs, current, last);
    OthersWereUsedEarlier(uses, last);
    OthersWereUsedEarlier(uses, left);
  }

  lemma OthersWereUsedEarlier(uses: seq<nat>, i: nat)
    requires |uses| >= 2 && uses[|uses| - 1] != i
    ensures if uses[|uses| - 2] == i then LastUse(uses, i) == |uses| - 1 else LastUse(uses, i) <= |uses| - 2
  {
    var before := uses[..|uses| - 1];
    assert before[|before| - 1] == uses[|uses| - 2];
    LastUseIsEarlier(before[..|before| - 1], i);
  }

  lemma {:induction false} LastUseIsEarlier(uses: seq<nat>, i: nat)
    ensures LastUse(uses, i) <= |uses|
  {
    if uses != [] {
      LastUseIsEarlier(uses[..|uses| - 1], i);
    }
  }
}
