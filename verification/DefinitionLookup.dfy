/** `finishDefinitionSearch`: what a definition lookup shows once its search is complete. */
module DefinitionLookup {
  import opened Options

  datatype Match = Match(line: nat, column: nat, length: nat, preview: string)
  datatype FileResult = FileResult(path: string, relativePath: string, matches: seq<Match>)

  /** The declaration pattern: absent when it is empty or not a valid expression. */
  type Pattern = Option<string -> bool>

  datatype Outcome =
    | NotUsed
    | Open(path: string, match': Match)
    | ListDeclarations(files: seq<FileResult>)
    | ListUses(files: seq<FileResult>)

  /** One result line: a match together with the file it stands in. */
  type Hit = (string, Match)

  function HitsIn(path: string, ms: seq<Match>): (hits: seq<Hit>)
    ensures |hits| == |ms|
  {
    seq(|ms|, i requires 0 <= i < |ms| => (path, ms[i]))
  }

  /** Every hit of a result list, in the order the panel shows them. */
  function Hits(files: seq<FileResult>): seq<Hit> {
    if files == [] then []
    else Hits(files[..|files| - 1]) + HitsIn(files[|files| - 1].path, files[|files| - 1].matches)
  }

  predicate IsDeclaration(p: Pattern, m: Match) {
    p.Some? && p.value(m.preview)
  }

  /** The hits whose line looks like a declaration, in order: the reference the scan is held to. */
  function Declarations(hits: seq<Hit>, p: Pattern): seq<Hit> {
    if hits == [] then []
    else
      var last := hits[|hits| - 1];
      Declarations(hits[..|hits| - 1], p) + if IsDeclaration(p, last.1) then [last] else []
  }

  lemma {:induction false} DeclarationsConcat(a: seq<Hit>, b: seq<Hit>, p: Pattern)
    ensures Declarations(a + b, p) == Declarations(a, p) + Declarations(b, p)
  {
    if b == [] {
      assert a + b == a;
    } else {
      DeclarationsConcat(a, b[..|b| - 1], p);
      assert (a + b)[..|a + b| - 1] == a + b[..|b| - 1];
    }
  }

  function KeptMatches(ms: seq<Match>, p: Pattern): seq<Match> {
    if ms == [] then []
    else
      var last := ms[|ms| - 1];
      KeptMatches(ms[..|ms| - 1], p) + if IsDeclaration(p, last) then [last] else []
  }

  function KeptFiles(files: seq<FileResult>, p: Pattern): seq<FileResult> {
    if files == [] then []
    else
      var last := files[|files| - 1];
      var kept := KeptMatches(last.matches, p);
      KeptFiles(files[..|files| - 1], p) + if kept == [] then [] else [last.(matches := kept)]
  }

  function Lookup(results: seq<FileResult>, p: Pattern): Outcome {
    if Hits(results) == [] then NotUsed
    else
      var kept := KeptFiles(results, p);
      KeptHits(results, p);
      if |Hits(kept)| == 1 then
        FirstHit(kept);
        Open(kept[0].path, kept[0].matches[0])
      else if |Hits(kept)| > 1 then ListDeclarations(kept)
      else ListUses(results)
  }

  lemma {:induction false} KeptInFile(path: string, ms: seq<Match>, p: Pattern)
    ensures HitsIn(path, KeptMatches(ms, p)) == Declarations(HitsIn(path, ms), p)
  {
    if ms != [] {
      var n := |ms| - 1;
      KeptInFile(path, ms[..n], p);
      assert HitsIn(path, ms)[..n] == HitsIn(path, ms[..n]);
      assert HitsIn(path, KeptMatches(ms, p))
          == HitsIn(path, KeptMatches(ms[..n], p))
             + if IsDeclaration(p, ms[n]) then [(path, ms[n])] else [];
    }
  }

  predicate NoneEmpty(files: seq<FileResult>) {
    forall i | 0 <= i < |files| :: files[i].matches != []
  }

  lemma {:induction false} KeptHits(files: seq<FileResult>, p: Pattern)
    ensures Hits(KeptFiles(files, p)) == Declarations(Hits(files), p)
    ensures NoneEmpty(KeptFiles(files, p))
  {
    if files != [] {
      var init, last := files[..|files| - 1], files[|files| - 1];
      KeptHits(init, p);
      KeptInFile(last.path, last.matches, p);
      DeclarationsConcat(Hits(init), HitsIn(last.path, last.matches), p);
      var kept := KeptMatches(last.matches, p);
      if kept == [] {
        assert KeptFiles(files, p) == KeptFiles(init, p);
        assert Hits(KeptFiles(init, p)) + HitsIn(last.path, kept) == Hits(KeptFiles(init, p));
      } else {
        var f := last.(matches := kept);
        assert (KeptFiles(init, p) + [f])[..|KeptFiles(init, p)|] == KeptFiles(init, p);
      }
    }
  }

  lemma {:induction false} EachFileHits(files: seq<FileResult>)
    requires NoneEmpty(files)
    ensures |Hits(files)| >= |files|
  {
    if files != [] {
      EachFileHits(files[..|files| - 1]);
    }
  }

  lemma FirstHit(files: seq<FileResult>)
    requires NoneEmpty(files) && |Hits(files)| == 1
    ensures |files| == 1 && |files[0].matches| == 1
    ensures Hits(files) == [(files[0].path, files[0].matches[0])]
  {
    EachFileHits(files);
    assert Hits(files) == [] + HitsIn(files[0].path, files[0].matches);
  }

  /**
    The answer by its meaning: nothing when there is no use, the declaration itself when there is
    exactly one, all declarations when there are several, and otherwise every use, each list in
    search order with nothing lost.
   */
  lemma LookupMeaning(results: seq<FileResult>, p: Pattern)
    ensures var uses, found := Hits(results), Declarations(Hits(results), p);
            match Lookup(results, p)
            case NotUsed => uses == []
            case Open(path, m) => found == [(path, m)]
            case ListDeclarations(files) => |found| >= 2 && Hits(files) == found && NoneEmpty(files)
            case ListUses(files) => uses != [] && found == [] && files == results
  {
    KeptHits(results, p);
    if |Hits(KeptFiles(results, p))| == 1 {
      FirstHit(KeptFiles(results, p));
    }
  }

  lemma HitsOneMore(files: seq<FileResult>, f: FileResult)
    ensures Hits(files + [f]) == Hits(files) + HitsIn(f.path, f.matches)
  {
    assert (files + [f])[..|files|] == files;
  }

  lemma KeptOneMore(files: seq<FileResult>, f: FileResult, p: Pattern)
    ensures var kept := KeptMatches(f.matches, p);
            KeptFiles(files + [f], p) == KeptFiles(files, p) + if kept == [] then [] else [f.(matches := kept)]
  {
    assert (files + [f])[..|files|] == files;
  }

  /** A file is listed under its own two paths, with some of its matches. */
  lemma {:induction false} KeptFilesAreResults(results: seq<FileResult>, p: Pattern, kept: FileResult)
    requires kept in KeptFiles(results, p)
    ensures exists f | f in results ::
              && kept.path == f.path && kept.relativePath == f.relativePath
              && forall m | m in kept.matches :: m in f.matches && p.Some? && p.value(m.preview)
  {
    var init, last := results[..|results| - 1], results[|results| - 1];
    KeptMatchesAreMatches(last.matches, p);
    if kept in KeptFiles(init, p) {
      KeptFilesAreResults(init, p, kept);
    } else {
      assert last in results;
    }
  }

  lemma {:induction false} KeptMatchesAreMatches(ms: seq<Match>, p: Pattern)
    ensures forall m | m in KeptMatches(ms, p) :: m in ms && p.Some? && p.value(m.preview)
  {
    if ms != [] {
      KeptMatchesAreMatches(ms[..|ms| - 1], p);
    }
  }

  /** A hit is a declaration when there is a pattern and it matches the preview line. */
  lemma DeclarationMeans(h: Hit, p: Pattern)
    ensures p.None? ==> Declarations([h], p) == []
    ensures p.Some? ==> Declarations([h], p) == if p.value(h.1.preview) then [h] else []
  {
    assert [h][..0] == [];
  }

  /** Every match of a file is a hit with the file's path, in order. */
  lemma HitsOfFile(f: FileResult)
    ensures |Hits([f])| == |f.matches|
    ensures forall i | 0 <= i < |f.matches| :: Hits([f])[i] == (f.path, f.matches[i])
  {
    HitsOneMore([], f);
    assert [] + [f] == [f];
  }

  method CountUses(results: seq<FileResult>) returns (useCount: nat)
    ensures useCount == |Hits(results)|
  {
    useCount := 0;
    ghost var seen := [];
    for i := 0 to |results|
      invariant seen == results[..i] && useCount == |Hits(seen)|
    {
      HitsOneMore(seen, results[i]);
      useCount := useCount + |results[i].matches|;
      seen := seen + [results[i]];
    }
    assert seen == results;
  }

  method KeepDeclarations(results: seq<FileResult>, p: Pattern)
    returns (declarations: seq<FileResult>, declarationCount: nat)
    ensures declarations == KeptFiles(results, p) && declarationCount == |Hits(declarations)|
  {
    declarations, declarationCount := [], 0;
    ghost var seen := [];
    for i := 0 to |results|
      invariant seen == results[..i]
      invariant declarations == KeptFiles(seen, p) && declarationCount == |Hits(declarations)|
    {
      KeptOneMore(seen, results[i], p);
      var kept := Classify(results[i].matches, p);
      if kept != [] {
        var f := results[i].(matches := kept);
        HitsOneMore(declarations, f);
        declarationCount := declarationCount + |kept|;
        declarations := declarations + [f];
      }
      seen := seen + [results[i]];
    }
    assert seen == results;
  }

  /** The counting and classifying loops of the source. */
  method FinishDefinitionSearch(results: seq<FileResult>, p: Pattern) returns (outcome: Outcome)
    ensures outcome == Lookup(results, p)
  {
    var useCount := CountUses(results);
    if useCount == 0 {
      return NotUsed;
    }
    var declarations, declarationCount := KeepDeclarations(results, p);
    KeptHits(results, p);
    if declarationCount == 1 {
      FirstHit(declarations);
      return Open(declarations[0].path, declarations[0].matches[0]);
    }
    return if declarationCount > 1 then ListDeclarations(declarations) else ListUses(results);
  }

  method Classify(ms: seq<Match>, p: Pattern) returns (kept: seq<Match>)
    ensures kept == KeptMatches(ms, p)
  {
    kept := [];
    for i := 0 to |ms|
      invariant kept == KeptMatches(ms[..i], p)
    {
      assert ms[..i + 1][..i] == ms[..i];
      if IsDeclaration(p, ms[i]) {
        kept := kept + [ms[i]];
      }
    }
    assert ms[..|ms|] == ms;
  }
}
