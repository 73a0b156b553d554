/** The two counting metrics: counter-gesture episodes per phase (M1) and viewport entries per key (M2). */
module ScrollEpisodes {
  import opened Options
  import opened MaximalBlocks
  import opened ScrollRuns

  // ---------- M1: counter-gesture episodes ----------

  /** Movement against the gesture: an upward gesture must decrease the offset. */
  function Backward(r: Run, i: nat): real
    requires 0 < i < |r.frames|
  {
    var delta := r.frames[i].offset - r.frames[i - 1].offset;
    if r.direction > 0 then delta else -delta
  }

  /** Frame `i` and the one before it belong to one stretch of `phase`. */
  predicate Compared(r: Run, phase: string, i: nat)
    requires i < |r.frames|
  {
    i > 0 && r.frames[i - 1].phase == phase && r.frames[i].phase == phase
  }

  predicate Counter(r: Run, phase: string, threshold: real, i: nat)
    requires i < |r.frames|
  {
    Compared(r, phase, i) && Backward(r, i) > threshold
  }

  /** Which of the first `n` frames of a run move against its gesture. */
  function CounterFlags(r: Run, phase: string, threshold: real, n: nat): (flags: seq<bool>)
    requires n <= |r.frames|
    ensures |flags| == n
  {
    seq(n, i requires 0 <= i < n => Counter(r, phase, threshold, i))
  }

  datatype Tally = Tally(frames: nat, episodes: nat, backward: real, worst: real)

  const NONE: Tally := Tally(0, 0, 0.0, 0.0)

  function Max(a: real, b: real): real {
    if a < b then b else a
  }

  /** The tally of the first `n` frames of a directed run on top of `t`; episodes are maximal blocks. */
  function TallyRun(t: Tally, r: Run, phase: string, threshold: real, n: nat): Tally
    requires n <= |r.frames|
  {
    Tally(t.frames + ComparedCount(r, phase, n),
          t.episodes + |Blocks(CounterFlags(r, phase, threshold, n))|,
          t.backward + BackwardSum(r, phase, threshold, n),
          WorstBackward(t.worst, r, phase, threshold, n))
  }

  function ComparedCount(r: Run, phase: string, n: nat): nat
    requires n <= |r.frames|
  {
    if n == 0 then 0 else ComparedCount(r, phase, n - 1) + if Compared(r, phase, n - 1) then 1 else 0
  }

  function BackwardSum(r: Run, phase: string, threshold: real, n: nat): real
    requires n <= |r.frames|
  {
    if n == 0 then 0.0
    else
      BackwardSum(r, phase, threshold, n - 1)
      + if Counter(r, phase, threshold, n - 1) then Backward(r, n - 1) else 0.0
  }

  function WorstBackward(worst: real, r: Run, phase: string, threshold: real, n: nat): real
    requires n <= |r.frames|
  {
    if n == 0 then worst
    else
      var before := WorstBackward(worst, r, phase, threshold, n - 1);
      if Counter(r, phase, threshold, n - 1) then Max(before, Backward(r, n - 1)) else before
  }

  function TallyRuns(runs: seq<Run>, phase: string, threshold: real): Tally {
    if runs == [] then NONE
    else
      var before, r := TallyRuns(runs[..|runs| - 1], phase, threshold), runs[|runs| - 1];
      if r.direction == 0 then before else TallyRun(before, r, phase, threshold, |r.frames|)
  }

  /** One more frame opens a new block exactly when it is the first hit after a miss. */
  lemma EpisodesGrow(r: Run, phase: string, threshold: real, n: nat)
    requires n < |r.frames|
    ensures var before, after := CounterFlags(r, phase, threshold, n), CounterFlags(r, phase, threshold, n + 1);
            |Blocks(after)| == |Blocks(before)|
              + if Counter(r, phase, threshold, n) && !(n > 0 && Counter(r, phase, threshold, n - 1)) then 1 else 0
  {
    var before, after := CounterFlags(r, phase, threshold, n), CounterFlags(r, phase, threshold, n + 1);
    assert after[..n] == before;
    CountIsNumberOfBlocks(before);
    CountIsNumberOfBlocks(after);
  }

  /** The streaming loop over one run: `previous` and `inEpisode` are what the flags say. */
  method MeasureRun(t: Tally, r: Run, phase: string, threshold: real) returns (t': Tally)
    requires r.direction != 0
    ensures t' == TallyRun(t, r, phase, threshold, |r.frames|)
  {
    var frames, episodes, backward, worst := t.frames, t.episodes, t.backward, t.worst;
    var previous: Option<real>, inEpisode := None, false;
    assert CounterFlags(r, phase, threshold, 0) == [] && Blocks([]) == {};
    for i := 0 to |r.frames|
      invariant Tally(frames, episodes, backward, worst) == TallyRun(t, r, phase, threshold, i)
      invariant previous == if i > 0 && r.frames[i - 1].phase == phase then Some(r.frames[i - 1].offset) else None
      invariant inEpisode == (i > 0 && Counter(r, phase, threshold, i - 1))
    {
      EpisodesGrow(r, phase, threshold, i);
      var frame := r.frames[i];
      if frame.phase != phase {
        previous, inEpisode := None, false;
        continue;
      }
      if previous.Some? {
        frames := frames + 1;
        var delta := frame.offset - previous.value;
        var against := if r.direction > 0 then delta else -delta;
        if against > threshold {
          backward := backward + against;
          worst := Max(worst, against);
          if !inEpisode {
            episodes, inEpisode := episodes + 1, true;
          }
        } else {
          inEpisode := false;
        }
      }
      previous := Some(frame.offset);
    }
    t' := Tally(frames, episodes, backward, worst);
  }

  /** Undirected runs are left out; the counters of one phase run on over the others. */
  method MeasureM1(runs: seq<Run>, phase: string, threshold: real) returns (t: Tally)
    ensures t == TallyRuns(runs, phase, threshold)
  {
    t := NONE;
    for i := 0 to |runs|
      invariant t == TallyRuns(runs[..i], phase, threshold)
    {
      assert runs[..i + 1][..i] == runs[..i];
      if runs[i].direction != 0 {
        t := MeasureRun(t, runs[i], phase, threshold);
      }
    }
    assert runs[..|runs|] == runs;
  }

  /** An episode is exactly a longest stretch of compared frames that each go further back than the threshold. */
  lemma EpisodeIsMaximal(r: Run, phase: string, threshold: real, a: nat, b: nat)
    ensures (a, b) in Blocks(CounterFlags(r, phase, threshold, |r.frames|)) <==>
            && 0 < a < b <= |r.frames|
            && (forall i: nat | a <= i < b :: Counter(r, phase, threshold, i))
            && !Counter(r, phase, threshold, a - 1)
            && (b == |r.frames| || !Counter(r, phase, threshold, b))
  {
    var flags := CounterFlags(r, phase, threshold, |r.frames|);
    assert flags != [] ==> !flags[0];
    assert forall i: nat | i < |flags| :: flags[i] == Counter(r, phase, threshold, i);
    assert (a, b) in Blocks(flags) <==> IsBlock(flags, a, b);
    if IsBlock(flags, a, b) {
      assert flags[a];
    }
  }

  // ---------- M2: viewport entries ----------

  type Key = string

  /** In which of the samples a key is on screen. */
  function Presence(samples: seq<Sample>, key: Key): (flags: seq<bool>)
    ensures |flags| == |samples|
  {
    seq(|samples|, i requires 0 <= i < |samples| => key in samples[i].keys)
  }

  function KeySet(keys: seq<Key>): set<Key> {
    set k | k in keys
  }

  /** Entries of each key: the maximal blocks of consecutive samples that show it. */
  ghost predicate CountsEntries(entries: map<Key, nat>, samples: seq<Sample>) {
    && (forall k | k in entries :: entries[k] == |Blocks(Presence(samples, k))| && entries[k] > 0)
    && (forall k | k !in entries :: Blocks(Presence(samples, k)) == {})
  }

  lemma PresenceGrows(samples: seq<Sample>, key: Key)
    requires samples != []
    ensures var n := |samples| - 1;
            |Blocks(Presence(samples, key))| == |Blocks(Presence(samples[..n], key))|
              + if key in samples[n].keys && !(n > 0 && key in samples[n - 1].keys) then 1 else 0
  {
    var n := |samples| - 1;
    assert Presence(samples, key)[..n] == Presence(samples[..n], key);
    CountIsNumberOfBlocks(Presence(samples, key));
    CountIsNumberOfBlocks(Presence(samples[..n], key));
  }

  /** `entries` with one more for each of `keys`. */
  function Bumped(entries: map<Key, nat>, keys: set<Key>): map<Key, nat> {
    map k | k in entries.Keys + keys ::
      (if k in entries then entries[k] else 0) + if k in keys then 1 else 0
  }

  /** The inner loop over the keys that came into view, in whatever order the set yields them. */
  method Bump(entries: map<Key, nat>, keys: set<Key>) returns (bumped: map<Key, nat>)
    ensures bumped == Bumped(entries, keys)
  {
    bumped := entries;
    var rest := keys;
    while rest != {}
      invariant rest <= keys && bumped == Bumped(entries, keys - rest)
      decreases |rest|
    {
      var k :| k in rest;
      bumped := bumped[k := (if k in bumped then bumped[k] else 0) + 1];
      rest := rest - {k};
    }
    assert keys - {} == keys;
  }

  function ShownKeys(samples: seq<Sample>): set<Key> {
    if samples == [] then {} else ShownKeys(samples[..|samples| - 1]) + KeySet(samples[|samples| - 1].keys)
  }

  lemma {:induction false} LastIsShown(samples: seq<Sample>)
    requires samples != []
    ensures KeySet(samples[|samples| - 1].keys) <= ShownKeys(samples)
  {
  }

  function OnScreen(samples: seq<Sample>): set<Key> {
    if samples == [] then {} else KeySet(samples[|samples| - 1].keys)
  }

  ghost predicate Counted(entries: map<Key, nat>, samples: seq<Sample>) {
    CountsEntries(entries, samples) && entries.Keys == ShownKeys(samples)
  }

  lemma SampleCounted(samples: seq<Sample>, entries: map<Key, nat>)
    requires samples != []
    requires Counted(entries, samples[..|samples| - 1])
    ensures Counted(Bumped(entries, OnScreen(samples) - OnScreen(samples[..|samples| - 1])), samples)
  {
    var before := samples[..|samples| - 1];
    var after := Bumped(entries, OnScreen(samples) - OnScreen(before));
    assert OnScreen(before) <= ShownKeys(before) by {
      if before != [] {
        LastIsShown(before);
      }
    }
    forall k: Key
      ensures k in after ==> after[k] == |Blocks(Presence(samples, k))| > 0
      ensures k !in after ==> Blocks(Presence(samples, k)) == {}
    {
      KeyCounted(samples, entries, k);
    }
  }

  lemma KeyCounted(samples: seq<Sample>, entries: map<Key, nat>, k: Key)
    requires samples != []
    requires Counted(entries, samples[..|samples| - 1])
    ensures var after := Bumped(entries, OnScreen(samples) - OnScreen(samples[..|samples| - 1]));
            && (k in after ==> after[k] == |Blocks(Presence(samples, k))| > 0)
            && (k !in after ==> Blocks(Presence(samples, k)) == {})
  {
    PresenceGrows(samples, k);
    if k !in entries {
      assert Blocks(Presence(samples[..|samples| - 1], k)) == {};
    }
  }

  method CountRun(samples: seq<Sample>) returns (entries: map<Key, nat>)
    ensures Counted(entries, samples)
  {
    entries := map[];
    var onScreen: set<Key> := {};
    assert forall k: Key :: Blocks(Presence(samples[..0], k)) == {};
    for i := 0 to |samples|
      invariant Counted(entries, samples[..i])
      invariant onScreen == OnScreen(samples[..i])
    {
      var keys := KeySet(samples[i].keys);
      assert samples[..i + 1][..i] == samples[..i];
      SampleCounted(samples[..i + 1], entries);
      entries := Bump(entries, keys - onScreen);
      onScreen := keys;
    }
    assert samples[..|samples|] == samples;
  }

  predicate Upward(r: Run) {
    r.direction > 0 && r.visibility != []
  }

  /** How often the busiest key of any upward run came into view. */
  ghost predicate IsWorst(runs: seq<Run>, worst: nat) {
    && (forall i, k | 0 <= i < |runs| && Upward(runs[i]) ::
          |Blocks(Presence(runs[i].visibility, k))| <= worst)
    && (worst > 0 ==> exists i, k | 0 <= i < |runs| && Upward(runs[i]) ::
          |Blocks(Presence(runs[i].visibility, k))| == worst)
  }

  ghost predicate IsMaximum(counts: seq<nat>, m: nat) {
    (forall i | 0 <= i < |counts| :: counts[i] <= m) && (m in counts || (counts == [] && m == 0))
  }

  function Occurs(counts: seq<nat>, n: nat): nat {
    multiset(counts)[n]
  }

  /** The keys of `keys` that came into view `n` times, and those that did so more than once. */
  function KeysWith(entries: map<Key, nat>, keys: set<Key>, n: nat): set<Key> {
    set k | k in keys && k in entries && entries[k] == n
  }

  function KeysAgain(entries: map<Key, nat>, keys: set<Key>): set<Key> {
    set k | k in keys && k in entries && entries[k] > 1
  }

  lemma OneMoreKeyWith(entries: map<Key, nat>, keys: set<Key>, k: Key, n: nat)
    requires k in entries && k !in keys
    ensures |KeysWith(entries, keys + {k}, n)| == |KeysWith(entries, keys, n)| + if entries[k] == n then 1 else 0
  {
    if entries[k] == n {
      assert KeysWith(entries, keys + {k}, n) == KeysWith(entries, keys, n) + {k};
    } else {
      assert KeysWith(entries, keys + {k}, n) == KeysWith(entries, keys, n);
    }
  }

  lemma OneMoreKeyAgain(entries: map<Key, nat>, keys: set<Key>, k: Key)
    requires k in entries && k !in keys
    ensures |KeysAgain(entries, keys + {k})| == |KeysAgain(entries, keys)| + if entries[k] > 1 then 1 else 0
  {
    if entries[k] > 1 {
      assert KeysAgain(entries, keys + {k}) == KeysAgain(entries, keys) + {k};
    } else {
      assert KeysAgain(entries, keys + {k}) == KeysAgain(entries, keys);
    }
  }

  lemma OneMoreKey(entries: map<Key, nat>, keys: set<Key>, k: Key)
    requires k in entries && k !in keys
    ensures forall n: nat ::
              |KeysWith(entries, keys + {k}, n)| == |KeysWith(entries, keys, n)| + if entries[k] == n then 1 else 0
    ensures |KeysAgain(entries, keys + {k})| == |KeysAgain(entries, keys)| + if entries[k] > 1 then 1 else 0
  {
    forall n: nat
      ensures |KeysWith(entries, keys + {k}, n)| == |KeysWith(entries, keys, n)| + if entries[k] == n then 1 else 0
    {
      OneMoreKeyWith(entries, keys, k, n);
    }
    OneMoreKeyAgain(entries, keys, k);
  }

  /** The keys of a run that form exactly `n` blocks of samples, and those that form more than one. */
  function KeysShownTimes(samples: seq<Sample>, n: nat): set<Key> {
    set k | k in ShownKeys(samples) && |Blocks(Presence(samples, k))| == n
  }

  function KeysShownAgain(samples: seq<Sample>): set<Key> {
    set k | k in ShownKeys(samples) && |Blocks(Presence(samples, k))| > 1
  }

  /** Over all upward runs: pairs of a run and a key that came into view `n` times in it, or more than once. */
  function PairsShownTimes(runs: seq<Run>, n: nat): nat {
    if runs == [] then 0
    else
      var r := runs[|runs| - 1];
      PairsShownTimes(runs[..|runs| - 1], n) + if Upward(r) then |KeysShownTimes(r.visibility, n)| else 0
  }

  function PairsShownAgain(runs: seq<Run>): nat {
    if runs == [] then 0
    else
      var r := runs[|runs| - 1];
      PairsShownAgain(runs[..|runs| - 1]) + if Upward(r) then |KeysShownAgain(r.visibility)| else 0
  }

  lemma CountedKeys(entries: map<Key, nat>, samples: seq<Sample>)
    requires Counted(entries, samples)
    ensures forall n: nat :: KeysWith(entries, entries.Keys, n) == KeysShownTimes(samples, n)
    ensures KeysAgain(entries, entries.Keys) == KeysShownAgain(samples)
  {
  }

  /** Pairs of an upward run and a key it shows. */
  function KeyRunPairs(runs: seq<Run>): nat {
    if runs == [] then 0
    else
      var r := runs[|runs| - 1];
      KeyRunPairs(runs[..|runs| - 1]) + if Upward(r) then |ShownKeys(r.visibility)| else 0
  }

  /** What the loop has done once it has seen `seen` of the entries. */
  ghost predicate Collected(entries: map<Key, nat>, seen: set<Key>, counts: seq<nat>, worst: nat, repeated: nat,
                            counts': seq<nat>, worst': nat, repeated': nat)
  {
    && repeated' == repeated + |KeysAgain(entries, seen)|
    && (forall n: nat :: Occurs(counts', n) == Occurs(counts, n) + |KeysWith(entries, seen, n)|)
    && counts <= counts' && |counts'| == |counts| + |seen| && IsMaximum(counts', worst')
    && (forall k | k in seen && k in entries :: entries[k] <= worst')
    && worst <= worst' && (worst' == worst || exists k | k in seen && k in entries :: entries[k] == worst')
  }

  lemma CollectedNone(entries: map<Key, nat>, counts: seq<nat>, worst: nat, repeated: nat)
    requires IsMaximum(counts, worst)
    ensures Collected(entries, {}, counts, worst, repeated, counts, worst, repeated)
  {
    assert KeysAgain(entries, {}) == {};
    assert forall n: nat :: KeysWith(entries, {}, n) == {};
  }

  lemma MaximumAppend(counts: seq<nat>, worst: nat, n: nat)
    requires IsMaximum(counts, worst)
    ensures IsMaximum(counts + [n], if n > worst then n else worst)
  {
    assert (counts + [n])[|counts|] == n;
    assert forall x | x in counts :: x in counts + [n];
  }

  lemma CollectedOneMore(entries: map<Key, nat>, seen: set<Key>, k: Key, counts: seq<nat>, worst: nat, repeated: nat,
                         counts': seq<nat>, worst': nat, repeated': nat)
    requires Collected(entries, seen, counts, worst, repeated, counts', worst', repeated')
    requires k in entries && k !in seen
    ensures var n := entries[k];
            Collected(entries, seen + {k}, counts, worst, repeated, counts' + [n],
                      if n > worst' then n else worst', if n > 1 then repeated' + 1 else repeated')
  {
    var n := entries[k];
    OneMoreKey(entries, seen, k);
    MaximumAppend(counts', worst', n);
    forall m: nat
      ensures Occurs(counts' + [n], m) == Occurs(counts, m) + |KeysWith(entries, seen + {k}, m)|
    {
      assert multiset(counts' + [n]) == multiset(counts') + multiset{n};
      assert Occurs(counts', m) == Occurs(counts, m) + |KeysWith(entries, seen, m)|;
    }
  }

  lemma CollectedAll(entries: map<Key, nat>, seen: set<Key>, counts: seq<nat>, worst: nat, repeated: nat,
                     counts': seq<nat>, worst': nat, repeated': nat)
    requires Collected(entries, seen, counts, worst, repeated, counts', worst', repeated')
    requires seen == entries.Keys - {}
    ensures Collected(entries, entries.Keys, counts, worst, repeated, counts', worst', repeated')
  {
    assert seen == entries.Keys;
  }

  /** The loop over the entries of one run: every number joins the list as often as keys have it. */
  method Collect(entries: map<Key, nat>, counts: seq<nat>, worst: nat, repeated: nat)
    returns (counts': seq<nat>, worst': nat, repeated': nat)
    requires IsMaximum(counts, worst)
    ensures Collected(entries, entries.Keys, counts, worst, repeated, counts', worst', repeated')
  {
    counts', worst', repeated' := counts, worst, repeated;
    CollectedNone(entries, counts, worst, repeated);
    var rest := entries.Keys;
    ghost var seen := {};
    while rest != {}
      invariant rest <= entries.Keys && seen == entries.Keys - rest
      invariant Collected(entries, seen, counts, worst, repeated, counts', worst', repeated')
      decreases |rest|
    {
      var k :| k in rest;
      var n := entries[k];
      CollectedOneMore(entries, seen, k, counts, worst, repeated, counts', worst', repeated');
      counts', worst', repeated' :=
        counts' + [n], if n > worst' then n else worst', if n > 1 then repeated' + 1 else repeated';
      seen, rest := seen + {k}, rest - {k};
      assert seen == entries.Keys - rest;
    }
    CollectedAll(entries, seen, counts, worst, repeated, counts', worst', repeated');
  }

  lemma WorstGrows(runs: seq<Run>, worst: nat, entries: map<Key, nat>, worst': nat)
    requires runs != [] && IsWorst(runs[..|runs| - 1], worst)
    requires Upward(runs[|runs| - 1]) && CountsEntries(entries, runs[|runs| - 1].visibility)
    requires worst <= worst' && forall k | k in entries :: entries[k] <= worst'
    requires worst' == worst || worst' in entries.Values
    ensures IsWorst(runs, worst')
  {
    var n := |runs| - 1;
    assert forall i | 0 <= i < n :: runs[..n][i] == runs[i];
    if worst' != worst {
      var k :| k in entries && entries[k] == worst';
      assert |Blocks(Presence(runs[n].visibility, k))| == worst';
    }
  }

  lemma WorstKept(runs: seq<Run>, worst: nat)
    requires runs != [] && IsWorst(runs[..|runs| - 1], worst) && !Upward(runs[|runs| - 1])
    ensures IsWorst(runs, worst)
  {
    var n := |runs| - 1;
    assert forall i | 0 <= i < n :: runs[..n][i] == runs[i];
  }

  /**
    `counts` holds, for each number, as many copies as there are pairs of an upward run and a key that
    came into view that often in it, and `repeated` is how many of them did so more than once.
   */
  ghost predicate Table(runs: seq<Run>, counts: seq<nat>, worst: nat, repeated: nat) {
    && IsWorst(runs, worst) && IsMaximum(counts, worst)
    && |counts| == KeyRunPairs(runs) && (forall n: nat :: Occurs(counts, n) == PairsShownTimes(runs, n))
    && repeated == PairsShownAgain(runs)
  }

  lemma TableSkips(runs: seq<Run>, counts: seq<nat>, worst: nat, repeated: nat)
    requires runs != [] && Table(runs[..|runs| - 1], counts, worst, repeated) && !Upward(runs[|runs| - 1])
    ensures Table(runs, counts, worst, repeated)
  {
    WorstKept(runs, worst);
    forall n: nat
      ensures Occurs(counts, n) == PairsShownTimes(runs, n)
    {
    }
  }

  lemma TableGrows(runs: seq<Run>, entries: map<Key, nat>, counts: seq<nat>, worst: nat, repeated: nat,
                   counts': seq<nat>, worst': nat, repeated': nat)
    requires runs != [] && Table(runs[..|runs| - 1], counts, worst, repeated)
    requires Upward(runs[|runs| - 1]) && Counted(entries, runs[|runs| - 1].visibility)
    requires Collected(entries, entries.Keys, counts, worst, repeated, counts', worst', repeated')
    ensures Table(runs, counts', worst', repeated')
  {
    WorstGrows(runs, worst, entries, worst');
    CountedKeys(entries, runs[|runs| - 1].visibility);
    forall n: nat
      ensures Occurs(counts', n) == PairsShownTimes(runs, n)
    {
      assert Occurs(counts', n) == Occurs(counts, n) + |KeysWith(entries, entries.Keys, n)|;
      OccursGrows(runs, entries, counts, n);
    }
  }

  lemma OccursGrows(runs: seq<Run>, entries: map<Key, nat>, counts: seq<nat>, n: nat)
    requires runs != [] && Upward(runs[|runs| - 1])
    requires Occurs(counts, n) == PairsShownTimes(runs[..|runs| - 1], n)
    requires KeysWith(entries, entries.Keys, n) == KeysShownTimes(runs[|runs| - 1].visibility, n)
    ensures Occurs(counts, n) + |KeysWith(entries, entries.Keys, n)| == PairsShownTimes(runs, n)
  {
  }

  /** One run joins the table. */
  method Tabulate(ghost before: seq<Run>, r: Run, counts: seq<nat>, worst: nat, repeated: nat)
    returns (counts': seq<nat>, worst': nat, repeated': nat)
    requires Table(before, counts, worst, repeated)
    ensures Table(before + [r], counts', worst', repeated')
  {
    assert (before + [r])[..|before|] == before;
    if !Upward(r) {
      TableSkips(before + [r], counts, worst, repeated);
      return counts, worst, repeated;
    }
    var entries := CountRun(r.visibility);
    counts', worst', repeated' := Collect(entries, counts, worst, repeated);
    TableGrows(before + [r], entries, counts, worst, repeated, counts', worst', repeated');
  }

  /**
    Sorting the list descending puts its maximum first, so the reported maximum and the worst key's
    entries are one number.
   */
  method MeasureM2(runs: seq<Run>) returns (counts: seq<nat>, worst: nat, maxEntries: nat, repeated: nat)
    ensures Table(runs, counts, worst, repeated) && maxEntries == worst
  {
    counts, worst, repeated := EmptyTable();
    ghost var done := [];
    for i := 0 to |runs|
      invariant done == runs[..i]
      invariant Table(done, counts, worst, repeated)
    {
      counts, worst, repeated := Tabulate(done, runs[i], counts, worst, repeated);
      done := done + [runs[i]];
    }
    assert done == runs;
    maxEntries := Largest(counts);
    OneMaximum(counts, worst, maxEntries);
  }

  method EmptyTable() returns (counts: seq<nat>, worst: nat, repeated: nat)
    ensures Table([], counts, worst, repeated)
  {
    counts, worst, repeated := [], 0, 0;
  }

  lemma OneMaximum(counts: seq<nat>, a: nat, b: nat)
    requires IsMaximum(counts, a) && IsMaximum(counts, b)
    ensures a == b
  {
    if counts != [] {
      var i :| 0 <= i < |counts| && counts[i] == a;
      var j :| 0 <= j < |counts| && counts[j] == b;
    }
  }

  /** The first element once the list is sorted in descending order. */
  method Largest(counts: seq<nat>) returns (m: nat)
    ensures IsMaximum(counts, m)
  {
    m := 0;
    for i := 0 to |counts|
      invariant IsMaximum(counts[..i], m)
    {
      assert counts[..i + 1] == counts[..i] + [counts[i]];
      if i == 0 || counts[i] > m {
        m := counts[i];
      }
    }
    assert counts[..|counts|] == counts;
  }

  // ---------- what is counted ----------

  /** Frame `i` and the one before it are both of the phase. */
  predicate Neighbours(r: Run, phase: string, i: nat) {
    0 < i < |r.frames| && r.frames[i - 1].phase == phase && r.frames[i].phase == phase
  }

  /** They are, and the offset moved more than the threshold the way the gesture did not ask. */
  predicate Opposes(r: Run, phase: string, threshold: real, i: nat)
    requires i < |r.frames|
  {
    Neighbours(r, phase, i) &&
    if r.direction > 0 then r.frames[i].offset > r.frames[i - 1].offset + threshold
    else r.frames[i].offset < r.frames[i - 1].offset - threshold
  }

  /** How far frame `i` is from the one before it. */
  function Step(r: Run, i: nat): real
    requires 0 < i < |r.frames|
  {
    if r.frames[i].offset < r.frames[i - 1].offset then r.frames[i - 1].offset - r.frames[i].offset
    else r.frames[i].offset - r.frames[i - 1].offset
  }

  /**
    The tally of one run: the pairs of neighbours compared, the distance of those that oppose the
    gesture, and the longest of them and of what was longest before.
   */
  lemma {:induction false} TallyMeans(t: Tally, r: Run, phase: string, threshold: real, n: nat)
    requires n <= |r.frames| && threshold >= 0.0
    ensures var t' := TallyRun(t, r, phase, threshold, n);
            && t'.frames == t.frames + |ComparedSet(r, phase, n)|
            && t'.worst >= t.worst
            && (forall i: nat | i < n && Opposes(r, phase, threshold, i) :: Step(r, i) <= t'.worst)
            && (t'.worst == t.worst
                || exists i: nat | i < n && Opposes(r, phase, threshold, i) :: Step(r, i) == t'.worst)
  {
    ComparedIsCardinality(r, phase, n);
    WorstIsLargest(t.worst, r, phase, threshold, n);
  }

  function ComparedSet(r: Run, phase: string, n: nat): set<nat> {
    set i: nat | 0 < i < n && Neighbours(r, phase, i)
  }

  lemma {:induction false} ComparedIsCardinality(r: Run, phase: string, n: nat)
    requires n <= |r.frames|
    ensures ComparedCount(r, phase, n) == |ComparedSet(r, phase, n)|
  {
    if n == 0 {
      assert ComparedSet(r, phase, n) == {};
    } else {
      ComparedIsCardinality(r, phase, n - 1);
      ComparedOneMore(r, phase, n - 1);
    }
  }

  lemma ComparedOneMore(r: Run, phase: string, n: nat)
    requires n < |r.frames|
    ensures |ComparedSet(r, phase, n + 1)| == |ComparedSet(r, phase, n)| + if Compared(r, phase, n) then 1 else 0
  {
    var fewer := ComparedSet(r, phase, n);
    assert ComparedSet(r, phase, n + 1) == if Compared(r, phase, n) then fewer + {n} else fewer;
  }

  lemma {:induction false} WorstIsLargest(worst: real, r: Run, phase: string, threshold: real, n: nat)
    requires n <= |r.frames| && threshold >= 0.0
    ensures var m := WorstBackward(worst, r, phase, threshold, n);
            && m >= worst
            && (forall i: nat | i < n && Opposes(r, phase, threshold, i) :: Step(r, i) <= m)
            && (m == worst || exists i: nat | i < n && Opposes(r, phase, threshold, i) :: Step(r, i) == m)
  {
    if n > 0 {
      WorstIsLargest(worst, r, phase, threshold, n - 1);
      OpposingIsCounter(r, phase, threshold, n - 1);
    }
  }

  /** The flags mark exactly the frames that oppose the gesture, and the distance added up is theirs. */
  lemma OpposingIsCounter(r: Run, phase: string, threshold: real, i: nat)
    requires i < |r.frames| && threshold >= 0.0
    ensures CounterFlags(r, phase, threshold, |r.frames|)[i] == Counter(r, phase, threshold, i)
            == Opposes(r, phase, threshold, i)
    ensures Opposes(r, phase, threshold, i) ==> Backward(r, i) == Step(r, i)
    ensures BackwardSum(r, phase, threshold, i + 1)
            == BackwardSum(r, phase, threshold, i) + if Opposes(r, phase, threshold, i) then Step(r, i) else 0.0
    ensures BackwardSum(r, phase, threshold, 0) == 0.0
  {
  }

  /** The tally of a trace adds up run by run, and its worst is the worst of all. */
  lemma {:induction false} TalliesAddUp(a: seq<Run>, b: seq<Run>, phase: string, threshold: real)
    ensures Both(TallyRuns(a, phase, threshold), TallyRuns(b, phase, threshold), TallyRuns(a + b, phase, threshold))
  {
    if b == [] {
      assert a + b == a;
      WorstIsNotNegative(a, phase, threshold);
    } else {
      var init, r := b[..|b| - 1], b[|b| - 1];
      TalliesAddUp(a, init, phase, threshold);
      assert a + b == (a + init) + [r] && b == init + [r];
      OneMoreRun(a + init, r, phase, threshold);
      OneMoreRun(init, r, phase, threshold);
      if r.direction != 0 {
        TallyAdds(TallyRuns(a, phase, threshold), TallyRuns(init, phase, threshold),
                  TallyRuns(a + init, phase, threshold), r, phase, threshold);
      }
    }
  }

  predicate Both(x: Tally, y: Tally, z: Tally) {
    && z.frames == x.frames + y.frames && z.episodes == x.episodes + y.episodes
    && z.backward == x.backward + y.backward && z.worst == (if x.worst < y.worst then y.worst else x.worst)
    && x.worst >= 0.0
  }

  /** A directed run adds its tally, an undirected one nothing. */
  lemma OneMoreRun(runs: seq<Run>, r: Run, phase: string, threshold: real)
    ensures TallyRuns(runs + [r], phase, threshold)
            == if r.direction == 0 then TallyRuns(runs, phase, threshold)
               else TallyRun(TallyRuns(runs, phase, threshold), r, phase, threshold, |r.frames|)
    ensures TallyRuns([], phase, threshold) == Tally(0, 0, 0.0, 0.0)
  {
    assert (runs + [r])[..|runs|] == runs;
  }

  lemma TallyAdds(x: Tally, y: Tally, z: Tally, r: Run, phase: string, threshold: real)
    requires Both(x, y, z)
    ensures Both(x, TallyRun(y, r, phase, threshold, |r.frames|), TallyRun(z, r, phase, threshold, |r.frames|))
  {
    WorstOfTwo(x.worst, y.worst, r, phase, threshold, |r.frames|);
  }

  lemma {:induction false} WorstIsNotNegative(runs: seq<Run>, phase: string, threshold: real)
    ensures TallyRuns(runs, phase, threshold).worst >= 0.0
  {
    if runs != [] {
      var n := |runs| - 1;
      WorstIsNotNegative(runs[..n], phase, threshold);
      WorstOfTwo(0.0, TallyRuns(runs[..n], phase, threshold).worst, runs[n], phase, threshold, |runs[n].frames|);
    }
  }

  lemma {:induction false} WorstOfTwo(x: real, y: real, r: Run, phase: string, threshold: real, n: nat)
    requires n <= |r.frames|
    ensures WorstBackward(Max(x, y), r, phase, threshold, n) == Max(x, WorstBackward(y, r, phase, threshold, n))
    ensures WorstBackward(y, r, phase, threshold, n) >= y
  {
    if n > 0 {
      WorstOfTwo(x, y, r, phase, threshold, n - 1);
    }
  }

  /** A key is shown when some sample has it, and its flags say which. */
  lemma {:induction false} ShownMeans(samples: seq<Sample>, key: Key)
    ensures key in ShownKeys(samples) <==> exists i :: 0 <= i < |samples| && key in samples[i].keys
    ensures forall i | 0 <= i < |samples| :: Presence(samples, key)[i] <==> key in samples[i].keys
  {
    if samples != [] {
      var n := |samples| - 1;
      ShownMeans(samples[..n], key);
      assert forall i | 0 <= i < n :: samples[..n][i] == samples[i];
    }
  }

  /** The pairs of a table add up run by run; only runs that scroll upward and have samples count. */
  lemma {:induction false} PairsShownAddUp(a: seq<Run>, b: seq<Run>, n: nat)
    ensures PairsShownTimes(a + b, n) == PairsShownTimes(a, n) + PairsShownTimes(b, n)
    ensures PairsShownAgain(a + b) == PairsShownAgain(a) + PairsShownAgain(b)
    ensures KeyRunPairs(a + b) == KeyRunPairs(a) + KeyRunPairs(b)
  {
    if b == [] {
      assert a + b == a;
    } else {
      PairsShownAddUp(a, b[..|b| - 1], n);
      assert (a + b)[..|a + b| - 1] == a + b[..|b| - 1];
    }
  }

  lemma PairsShownIn(r: Run, n: nat)
    ensures var counts := r.direction > 0 && |r.visibility| > 0;
            && PairsShownTimes([r], n) == (if counts then |KeysShownTimes(r.visibility, n)| else 0)
            && PairsShownAgain([r]) == (if counts then |KeysShownAgain(r.visibility)| else 0)
            && KeyRunPairs([r]) == (if counts then |ShownKeys(r.visibility)| else 0)
  {
    assert [r][..0] == [];
  }
}
