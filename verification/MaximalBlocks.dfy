/** Maximal blocks of consecutive hits in a sequence of flags, and the streaming count of them. */
module MaximalBlocks {
  /** `[a, b)` is a block of hits that can be extended at neither end. */
  predicate IsBlock(flags: seq<bool>, a: nat, b: nat) {
    && a < b <= |flags|
    && (forall i | a <= i < b :: flags[i])
    && (a == 0 || !flags[a - 1])
    && (b == |flags| || !flags[b])
  }

  function Blocks(flags: seq<bool>): set<(nat, nat)> {
    set a: nat, b: nat | a < |flags| && b <= |flags| && IsBlock(flags, a, b) :: (a, b)
  }

  /** The flag at `i` is a hit and the one before it is not. */
  predicate Begins(flags: seq<bool>, i: nat) {
    i < |flags| && flags[i] && (i == 0 || !flags[i - 1])
  }

  /** What a reader of the flags counts by noting each hit that follows a miss. */
  function CountBegins(flags: seq<bool>): nat {
    if flags == [] then 0
    else CountBegins(flags[..|flags| - 1]) + if Begins(flags, |flags| - 1) then 1 else 0
  }

  /** The start of the block that reaches the end of the flags. */
  function LastBegin(flags: seq<bool>): (a: nat)
    requires flags != [] && flags[|flags| - 1]
    ensures IsBlock(flags, a, |flags|)
  {
    var n := |flags| - 1;
    if n == 0 || !flags[n - 1] then n
    else
      var init := flags[..n];
      assert init[n - 1] == flags[n - 1];
      var a := LastBegin(init);
      assert forall i | a <= i < n :: flags[i] == init[i];
      assert a == 0 || flags[a - 1] == init[a - 1];
      a
  }

  lemma LastBlockIsUnique(flags: seq<bool>, a: nat)
    requires flags != [] && flags[|flags| - 1] && IsBlock(flags, a, |flags|)
    ensures a == LastBegin(flags)
  {
    var l := LastBegin(flags);
    assert l > 0 ==> !flags[l - 1];
    assert a > 0 ==> !flags[a - 1];
  }

  /** Blocks of a sequence in terms of the blocks of all but its last flag. */
  lemma {:induction false} BlocksGrow(flags: seq<bool>)
    requires flags != []
    ensures var n := |flags| - 1;
            var init := flags[..n];
            Blocks(flags) ==
              if !flags[n] then Blocks(init)
              else if n == 0 || !init[n - 1] then Blocks(init) + {(n, n + 1)}
              else Blocks(init) - {(LastBegin(init), n)} + {(LastBegin(init), n + 1)}
  {
    var n := |flags| - 1;
    var init := flags[..n];
    assert forall i | 0 <= i < n :: init[i] == flags[i];
    var expected :=
      if !flags[n] then Blocks(init)
      else if n == 0 || !init[n - 1] then Blocks(init) + {(n, n + 1)}
      else Blocks(init) - {(LastBegin(init), n)} + {(LastBegin(init), n + 1)};
    forall p: (nat, nat)
      ensures p in Blocks(flags) <==> p in expected
    {
      OneBlockGrows(flags, p.0, p.1);
    }
  }

  lemma OneBlockGrows(flags: seq<bool>, a: nat, b: nat)
    requires flags != []
    ensures var n := |flags| - 1;
            var init := flags[..n];
            IsBlock(flags, a, b) <==>
              if b <= n then IsBlock(init, a, b) && (b < n || !flags[n])
              else b == n + 1 && flags[n] &&
                   (if n == 0 || !init[n - 1] then a == n else a == LastBegin(init))
  {
    var n := |flags| - 1;
    var init := flags[..n];
    assert forall i | 0 <= i < n :: init[i] == flags[i];
    if b == n + 1 && flags[n] && n > 0 && init[n - 1] {
      assert flags[n - 1];
      if IsBlock(flags, a, b) {
        LastBlockIsUnique(init, a);
      }
    }
  }

  /** The streaming count is the number of maximal blocks. */
  lemma {:induction false} CountIsNumberOfBlocks(flags: seq<bool>)
    ensures |Blocks(flags)| == CountBegins(flags)
  {
    if flags == [] {
      assert Blocks(flags) == {};
    } else {
      var n := |flags| - 1;
      var init := flags[..n];
      CountIsNumberOfBlocks(init);
      BlocksGrow(flags);
      assert n > 0 ==> init[n - 1] == flags[n - 1];
      assert forall p | p in Blocks(init) :: p.1 <= n;
      if flags[n] && n > 0 && init[n - 1] {
        assert (LastBegin(init), n) in Blocks(init);
        assert (LastBegin(init), n + 1) !in Blocks(init);
      } else if flags[n] {
        assert (n, n + 1) !in Blocks(init);
      }
    }
  }
}
