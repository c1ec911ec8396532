/** e4.5: eliminate adjacent duplicates from a slice of strings in place. The slice is an
    array; the function returns the new length, and the elements past it are what the
    shifting left behind in the backing array. */
module AdjacentDups {

  /** What `removeDups` computes. When `s[0] == s[1]` it drops `s[0]`, keeps `s[1]`, and
      then moves on to the pair after `s[1]`, so it never compares `s[1]` with `s[2]`. */
  function Collapse<T(==)>(s: seq<T>): (r: seq<T>)
    decreases |s|
  {
    if |s| < 2 then s
    else if s[0] == s[1] then [s[1]] + Collapse(s[2..])
    else [s[0]] + Collapse(s[1..])
  }

  /** Every run of equal neighbours reduced to one element. */
  function Runs<T(==)>(s: seq<T>): (r: seq<T>)
    decreases |s|
  {
    if |s| < 2 then s
    else if s[0] == s[1] then Runs(s[1..])
    else [s[0]] + Runs(s[1..])
  }

  predicate NoAdjacentDups<T(==)>(s: seq<T>)
  {
    forall k | 0 <= k < |s| - 1 :: s[k] != s[k + 1]
  }

  /** No three neighbours in a row are equal. */
  predicate NoTriples<T(==)>(s: seq<T>)
  {
    forall k | 0 <= k < |s| - 2 :: !(s[k] == s[k + 1] && s[k + 1] == s[k + 2])
  }

  /** `t` is `s` with some elements deleted, the others kept in order. */
  predicate Subsequence<T(==)>(t: seq<T>, s: seq<T>)
    decreases |s|
  {
    if t == [] then true
    else if s == [] then false
    else (t[0] == s[0] && Subsequence(t[1..], s[1..])) || Subsequence(t, s[1..])
  }

  /** `append(str[:i], str[i+1:]...)` on a slice of length `n`: the suffix moves one place
      left over position `i`; position `n - 1` and everything past it keep their value. */
  method ShiftLeft<T>(a: array<T>, i: nat, n: nat)
    requires i < n <= a.Length
    modifies a
    ensures a[..i] == old(a[..i])
    ensures a[i..n - 1] == old(a[i + 1..n])
    ensures a[n - 1..] == old(a[n - 1..])
  {
    var j := i;
    while j < n - 1
      invariant i <= j <= n - 1
      invariant forall k | 0 <= k < a.Length ::
                  a[k] == (if i <= k < j then old(a[k + 1]) else old(a[k]))
    {
      a[j] := a[j + 1];
      j := j + 1;
    }
  }

  /** The kept prefix and the collapse of the rest, after one removal at `i`. */
  lemma CollapseRemoveStep<T>(s0: seq<T>, b: seq<T>, c: seq<T>, i: nat, n: nat)
    requires i + 1 < n <= |b| == |c| && b[i] == b[i + 1]
    requires Collapse(s0) == b[..i] + Collapse(b[i..n])
    requires c[..i] == b[..i] && c[i..n - 1] == b[i + 1..n]
    ensures Collapse(s0) == c[..i + 1] + Collapse(c[i + 1..n - 1])
  {
    assert Collapse(b[i..n]) == [b[i + 1]] + Collapse(b[i + 2..n]);
    assert c[i] == c[i..n - 1][0] == b[i + 1..n][0] == b[i + 1];
    assert c[i + 1..n - 1] == c[i..n - 1][1..] == b[i + 1..n][1..] == b[i + 2..n];
    assert c[..i + 1] == c[..i] + [c[i]];
  }

  /** The kept prefix and the collapse of the rest, after keeping position `i`. */
  lemma CollapseKeepStep<T>(s0: seq<T>, b: seq<T>, i: nat, n: nat)
    requires i + 1 < n <= |b| && b[i] != b[i + 1]
    requires Collapse(s0) == b[..i] + Collapse(b[i..n])
    ensures Collapse(s0) == b[..i + 1] + Collapse(b[i + 1..n])
  {
    assert Collapse(b[i..n]) == [b[i]] + Collapse(b[i + 1..n]);
    assert b[..i + 1] == b[..i] + [b[i]];
  }

  /** Past the current length, every position holds the input's last element. */
  ghost predicate Leftover<T>(b: seq<T>, n: nat, s0: seq<T>)
  {
    && n <= |b| == |s0|
    && (0 < n ==> b[n - 1] == s0[|s0| - 1])
    && forall k | n <= k < |b| :: b[k] == s0[|s0| - 1]
  }

  lemma LeftoverStep<T>(b: seq<T>, c: seq<T>, i: nat, n: nat, s0: seq<T>)
    requires i + 1 < n <= |b| == |c| && Leftover(b, n, s0)
    requires c[i..n - 1] == b[i + 1..n] && c[n - 1..] == b[n - 1..]
    ensures Leftover(c, n - 1, s0)
  {
    var last := s0[|s0| - 1];
    assert c[n - 2] == c[i..n - 1][n - 2 - i] == b[n - 1];
    forall k | n - 1 <= k < |c|
      ensures c[k] == last
    {
      assert c[k] == c[n - 1..][k - (n - 1)] == b[k];
    }
  }

  /** `removeDups(str)`: the kept prefix is `Collapse` of the input; each removal leaves the
      old last element behind, so every position past the prefix holds it. */
  method RemoveDups<T(==)>(a: array<T>) returns (n: nat)
    modifies a
    ensures n <= a.Length
    ensures a[..n] == Collapse(old(a[..]))
    ensures forall k | n <= k < a.Length :: a[k] == old(a[a.Length - 1])
  {
    ghost var s0 := a[..];
    n := a.Length;
    var i := 0;
    assert a[i..n] == s0;
    while i < n - 1
      invariant 0 <= i <= n <= a.Length
      invariant Collapse(s0) == a[..i] + Collapse(a[i..n])
      invariant Leftover(a[..], n, s0)
    {
      if a[i] == a[i + 1] {
        ghost var before := a[..];
        ShiftLeft(a, i, n);
        CollapseRemoveStep(s0, before, a[..], i, n);
        LeftoverStep(before, a[..], i, n, s0);
        n := n - 1;
      } else {
        CollapseKeepStep(s0, a[..], i, n);
      }
      i := i + 1;
    }
    assert a[i..n] == Collapse(a[i..n]);
    assert a[..i] + a[i..n] == a[..n];
  }

  /** Each iteration removes at most one element: the result is never longer. */
  lemma {:induction false} CollapseLength<T>(s: seq<T>)
    ensures |Collapse(s)| <= |s|
    decreases |s|
  {
    if |s| >= 2 {
      if s[0] == s[1] { CollapseLength(s[2..]); } else { CollapseLength(s[1..]); }
    }
  }

  /** The result keeps the input's order: it is a subsequence of it. */
  lemma {:induction false} CollapseSubsequence<T>(s: seq<T>)
    ensures Subsequence(Collapse(s), s)
    decreases |s|
  {
    if |s| < 2 {
      SubsequenceReflexive(s);
    } else if s[0] == s[1] {
      CollapseSubsequence(s[2..]);
      var t := Collapse(s);
      assert t[0] == s[1] && t[1..] == Collapse(s[2..]);
      assert s[1..][1..] == s[2..];
      assert Subsequence(t, s[1..]);
    } else {
      CollapseSubsequence(s[1..]);
    }
  }

  lemma {:induction false} SubsequenceReflexive<T>(s: seq<T>)
    ensures Subsequence(s, s)
    decreases |s|
  {
    if s != [] {
      SubsequenceReflexive(s[1..]);
    }
  }

  /** An element is removed only next to an equal one: no value disappears and none appears. */
  lemma {:induction false} CollapseSameElements<T>(s: seq<T>)
    ensures forall x :: x in Collapse(s) <==> x in s
    decreases |s|
  {
    if |s| >= 2 {
      if s[0] == s[1] {
        CollapseSameElements(s[2..]);
        assert s == [s[0], s[1]] + s[2..];
      } else {
        CollapseSameElements(s[1..]);
        assert s == [s[0]] + s[1..];
      }
    }
  }

  /** The first element survives (as itself or as its equal neighbour). */
  lemma CollapseHead<T>(s: seq<T>)
    requires s != []
    ensures Collapse(s) != [] && Collapse(s)[0] == s[0]
  {
  }

  lemma RunsCons<T>(x: T, t: seq<T>)
    ensures Runs([x] + t) == if t == [] then [x] else if x == t[0] then Runs(t) else [x] + Runs(t)
  {
    assert ([x] + t)[1..] == t;
  }

  /** Collapsing every run of the result gives what collapsing every run of the input gives. */
  lemma {:induction false} RunsOfCollapse<T>(s: seq<T>)
    ensures Runs(Collapse(s)) == Runs(s)
    decreases |s|
  {
    if |s| >= 2 {
      var t := if s[0] == s[1] then s[2..] else s[1..];
      var x := if s[0] == s[1] then s[1] else s[0];
      RunsOfCollapse(t);
      if t != [] { CollapseHead(t); }
      RunsCons(x, Collapse(t));
      RunsCons(x, t);
      if s[0] == s[1] {
        assert s[1..] == [s[1]] + s[2..];
      } else {
        assert s[1..] == t;
      }
    }
  }

  /** When no input run is longer than two, the result has no adjacent duplicates. */
  lemma {:induction false} CollapseWithoutTriples<T>(s: seq<T>)
    requires NoTriples(s)
    ensures NoAdjacentDups(Collapse(s))
    decreases |s|
  {
    if |s| >= 2 {
      var t := if s[0] == s[1] then s[2..] else s[1..];
      assert NoTriples(t) by {
        forall k | 0 <= k < |t| - 2
          ensures !(t[k] == t[k + 1] && t[k + 1] == t[k + 2])
        {
          var d := if s[0] == s[1] then 2 else 1;
          assert t[k] == s[k + d] && t[k + 1] == s[k + 1 + d] && t[k + 2] == s[k + 2 + d];
        }
      }
      CollapseWithoutTriples(t);
      if t != [] {
        CollapseHead(t);
        assert s[0] == s[1] ==> t[0] == s[2] && s[1] != s[2];
      }
    }
  }

  /** The sample input of the program collapses completely. */
  lemma SampleInput()
    ensures Collapse(["a", "a", "b", "c", "c", "d", "d", "e", "e"]) == ["a", "b", "c", "d", "e"]
  {
    var s := ["a", "a", "b", "c", "c", "d", "d", "e", "e"];
    assert s[2..] == ["b", "c", "c", "d", "d", "e", "e"];
    assert s[2..][1..] == ["c", "c", "d", "d", "e", "e"];
    assert s[2..][1..][2..] == ["d", "d", "e", "e"];
    assert s[2..][1..][2..][2..] == ["e", "e"];
  }

  /** A run of three keeps two: the as-written loop advances past the element it kept. */
  lemma RunOfThreeKeepsTwo()
    ensures Collapse(["a", "a", "a"]) == ["a", "a"]
    ensures !NoAdjacentDups(Collapse(["a", "a", "a"]))
  {
    var s := ["a", "a", "a"];
    assert s[2..] == ["a"];
  }

  /** Every run of equal neighbours in `Runs(s)` has length one. */
  lemma {:induction false} RunsNoAdjacentDups<T>(s: seq<T>)
    ensures NoAdjacentDups(Runs(s))
    ensures s != [] ==> Runs(s) != [] && Runs(s)[0] == s[0]
    decreases |s|
  {
    if |s| >= 2 {
      RunsNoAdjacentDups(s[1..]);
    }
  }

  lemma RunsRemoveStep<T>(s0: seq<T>, b: seq<T>, c: seq<T>, i: nat, n: nat)
    requires i + 1 < n <= |b| == |c| && b[i] == b[i + 1]
    requires Runs(s0) == b[..i] + Runs(b[i..n])
    requires c[..i] == b[..i] && c[i..n - 1] == b[i + 1..n]
    ensures Runs(s0) == c[..i] + Runs(c[i..n - 1])
  {
    assert Runs(b[i..n]) == Runs(b[i + 1..n]);
  }

  lemma RunsKeepStep<T>(s0: seq<T>, b: seq<T>, i: nat, n: nat)
    requires i + 1 < n <= |b| && b[i] != b[i + 1]
    requires Runs(s0) == b[..i] + Runs(b[i..n])
    ensures Runs(s0) == b[..i + 1] + Runs(b[i + 1..n])
  {
    assert Runs(b[i..n]) == [b[i]] + Runs(b[i + 1..n]);
    assert b[..i + 1] == b[..i] + [b[i]];
  }

  /** The loop as evidently intended: after a removal it compares the same position again. */
  method RemoveAdjacentDups<T(==)>(a: array<T>) returns (n: nat)
    modifies a
    ensures n <= a.Length
    ensures a[..n] == Runs(old(a[..]))
    ensures forall k | n <= k < a.Length :: a[k] == old(a[a.Length - 1])
  {
    ghost var s0 := a[..];
    n := a.Length;
    var i := 0;
    assert a[i..n] == s0;
    while i < n - 1
      invariant 0 <= i <= n <= a.Length
      invariant Runs(s0) == a[..i] + Runs(a[i..n])
      invariant Leftover(a[..], n, s0)
    {
      if a[i] == a[i + 1] {
        ghost var before := a[..];
        ShiftLeft(a, i, n);
        ghost var after := a[..];
        RunsRemoveStep(s0, before, after, i, n);
        LeftoverStep(before, after, i, n, s0);
        n := n - 1;
        assert a[..] == after;
      } else {
        RunsKeepStep(s0, a[..], i, n);
        i := i + 1;
      }
    }
    assert a[i..n] == Runs(a[i..n]);
    assert a[..i] + a[i..n] == a[..n];
  }
}
