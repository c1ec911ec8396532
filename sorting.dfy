/** Go's `sort.Sort` as this repository uses it: `Len`, `Less` and `Swap` over a slice.
    `sort.Sort` sorts short slices (up to twelve elements) by insertion sort, and that is the
    algorithm modelled here. A `Less` of this repository may panic, so the comparator returns
    an `Outcome`, and a panic stops the sort. */
module Sorting {

  /** The result of one `Less(i, j)` call: a boolean, or a panic. */
  datatype Outcome = Ok(less: bool) | Panic

  predicate Less<T>(cmp: (T, T) -> Outcome, x: T, y: T)
  {
    cmp(x, y) == Ok(true)
  }

  ghost predicate NeverPanics<T>(cmp: (T, T) -> Outcome, s: seq<T>)
  {
    forall x, y | x in s && y in s :: cmp(x, y).Ok?
  }

  /** `cmp` is a strict weak order on the elements of `s`: asymmetric, and "not less" is transitive. */
  ghost predicate StrictWeakOrderOn<T>(cmp: (T, T) -> Outcome, s: seq<T>)
  {
    && NeverPanics(cmp, s)
    && (forall x, y | x in s && y in s :: Less(cmp, x, y) ==> !Less(cmp, y, x))
    && (forall x, y, z | x in s && y in s && z in s ::
          !Less(cmp, y, x) && !Less(cmp, z, y) ==> !Less(cmp, z, x))
  }

  /** No element is `Less` than an element before it (the order `sort.IsSorted` checks). */
  ghost predicate SortedBy<T>(cmp: (T, T) -> Outcome, s: seq<T>)
  {
    forall p, q | 0 <= p < q < |s| :: !Less(cmp, s[q], s[p])
  }

  /** The `Swap(i, j)` of every sort.Interface here: `s[i], s[j] = s[j], s[i]`. */
  method Swap<T>(a: array<T>, i: int, j: int)
    requires 0 <= i < a.Length && 0 <= j < a.Length
    modifies a
    ensures a[..] == old(a[..])[i := old(a[j])][j := old(a[i])]
  {
    a[i], a[j] := a[j], a[i];
  }

  /** The first `n` elements of `s` are sorted. */
  ghost predicate SortedPrefix<T>(cmp: (T, T) -> Outcome, s: seq<T>, n: int)
  {
    forall p, q | 0 <= p < q < n && q < |s| :: !Less(cmp, s[q], s[p])
  }

  /** While `s[j]` travels left inside `s[..i+1]`: all other pairs are in order, and nothing to
      the right of `s[j]` is `Less` than it. */
  ghost predicate Inserting<T>(cmp: (T, T) -> Outcome, s: seq<T>, i: int, j: int)
  {
    && (forall p, q | 0 <= p < q <= i && p != j && q != j && q < |s| :: !Less(cmp, s[q], s[p]))
    && (forall q | j < q <= i && 0 <= j && q < |s| :: !Less(cmp, s[q], s[j]))
  }

  /** An element of a sequence is an element of any sequence with the same multiset. */
  lemma InMultiset<T>(s: seq<T>, s0: seq<T>, k: int)
    requires multiset(s) == multiset(s0) && 0 <= k < |s|
    ensures s[k] in s0
  {
    assert s[k] in multiset(s);
  }

  lemma InsertingStep<T>(cmp: (T, T) -> Outcome, s: seq<T>, s0: seq<T>, i: int, j: int)
    requires StrictWeakOrderOn(cmp, s0) && multiset(s) == multiset(s0)
    requires 0 < j <= i < |s| && Inserting(cmp, s, i, j) && Less(cmp, s[j], s[j - 1])
    ensures Inserting(cmp, s[j := s[j - 1]][j - 1 := s[j]], i, j - 1)
  {
    var t := s[j := s[j - 1]][j - 1 := s[j]];
    InMultiset(s, s0, j);
    InMultiset(s, s0, j - 1);
    forall p, q | 0 <= p < q <= i && p != j - 1 && q != j - 1
      ensures !Less(cmp, t[q], t[p])
    {
      if q == j {
        assert t[q] == s[j - 1];
      } else if p == j {
        assert t[p] == s[j - 1] && !Less(cmp, s[q], s[j - 1]);
      }
    }
  }

  lemma InsertingDone<T>(cmp: (T, T) -> Outcome, s: seq<T>, s0: seq<T>, i: int, j: int)
    requires StrictWeakOrderOn(cmp, s0) && multiset(s) == multiset(s0)
    requires 0 <= j <= i < |s| && Inserting(cmp, s, i, j)
    requires j == 0 || !Less(cmp, s[j], s[j - 1])
    ensures SortedPrefix(cmp, s, i + 1)
  {
    forall p, q | 0 <= p < q < i + 1
      ensures !Less(cmp, s[q], s[p])
    {
      if q == j && p < j - 1 {
        InMultiset(s, s0, p);
        InMultiset(s, s0, j - 1);
        InMultiset(s, s0, j);
        assert !Less(cmp, s[j - 1], s[p]);
      }
    }
  }

  /** `data.Swap(j, j-1)` after `data.Less(j, j-1)`: the travelling element moves one step left. */
  method StepLeft<T>(a: array<T>, i: int, j: int, cmp: (T, T) -> Outcome, ghost s0: seq<T>, ghost swo: bool)
    requires 0 < j <= i < a.Length && multiset(a[..]) == multiset(s0)
    requires swo ==> StrictWeakOrderOn(cmp, s0) && Inserting(cmp, a[..], i, j)
    requires Less(cmp, a[j], a[j - 1])
    modifies a
    ensures multiset(a[..]) == multiset(s0)
    ensures swo ==> Inserting(cmp, a[..], i, j - 1)
  {
    if swo {
      InsertingStep(cmp, a[..], s0, i, j);
    }
    Swap(a, j, j - 1);
  }

  /** One round of the outer loop: `data.Less(j, j-1)` moves `a[i]` left, step by step. */
  method Insert<T>(a: array<T>, i: int, cmp: (T, T) -> Outcome, ghost s0: seq<T>) returns (ok: bool)
    requires 0 < i < a.Length
    requires multiset(a[..]) == multiset(s0)
    requires StrictWeakOrderOn(cmp, s0) ==> SortedPrefix(cmp, a[..], i)
    modifies a
    ensures multiset(a[..]) == multiset(s0)
    ensures ok && StrictWeakOrderOn(cmp, s0) ==> SortedPrefix(cmp, a[..], i + 1)
    ensures !ok ==> exists x, y :: x in s0 && y in s0 && cmp(x, y) == Panic
  {
    ghost var swo := StrictWeakOrderOn(cmp, s0);
    var j := i;
    while j > 0
      invariant 0 <= j <= i
      invariant multiset(a[..]) == multiset(s0)
      invariant swo ==> Inserting(cmp, a[..], i, j)
    {
      var c := cmp(a[j], a[j - 1]);
      if c.Panic? {
        InMultiset(a[..], s0, j);
        InMultiset(a[..], s0, j - 1);
        return false;
      }
      if !c.less {
        break;
      }
      StepLeft(a, i, j, cmp, s0, swo);
      j := j - 1;
    }
    if swo {
      InsertingDone(cmp, a[..], s0, i, j);
    }
    ok := true;
  }

  /** `sort.Sort(data)` with `data.Len() == a.Length`: for i = 1, 2, ..., move a[i] left while it
      is `Less` than its left neighbour. */
  method InsertionSort<T>(a: array<T>, cmp: (T, T) -> Outcome) returns (ok: bool)
    modifies a
    ensures multiset(a[..]) == multiset(old(a[..]))
    ensures NeverPanics(cmp, old(a[..])) ==> ok
    ensures !ok ==> exists x, y :: x in old(a[..]) && y in old(a[..]) && cmp(x, y) == Panic
    ensures ok && StrictWeakOrderOn(cmp, old(a[..])) ==> SortedBy(cmp, a[..])
  {
    ghost var s0 := a[..];
    var n := a.Length;
    var i := 1;
    while i < n
      invariant n == 0 || 1 <= i <= n
      invariant multiset(a[..]) == multiset(s0)
      invariant StrictWeakOrderOn(cmp, s0) ==> SortedPrefix(cmp, a[..], i)
    {
      ok := Insert(a, i, cmp, s0);
      if !ok {
        return;
      }
      i := i + 1;
    }
    ok := true;
  }

  /** Sorts a copy of `s` in a fresh slice; the result is what `sort.Sort` leaves in the slice. */
  method SortSlice<T>(s: seq<T>, cmp: (T, T) -> Outcome) returns (ok: bool, r: seq<T>)
    ensures multiset(r) == multiset(s)
    ensures NeverPanics(cmp, s) ==> ok
    ensures !ok ==> exists x, y :: x in s && y in s && cmp(x, y) == Panic
    ensures ok && StrictWeakOrderOn(cmp, s) ==> SortedBy(cmp, r)
  {
    var a := new T[|s|](k requires 0 <= k < |s| => s[k]);
    assert a[..] == s;
    ok := InsertionSort(a, cmp);
    r := a[..];
  }

  /** In a sequence whose multiset is that of a set, no element occurs twice. */
  lemma NoRepeats<T>(s: seq<T>, S: set<T>, p: int, q: int)
    requires multiset(s) == multiset(S)
    requires 0 <= p < q < |s|
    ensures s[p] != s[q]
  {
    assert s == s[..q] + [s[q]] + s[q + 1..];
    assert s[p] in s[..q];
    assert multiset(s)[s[q]] == multiset(s[..q])[s[q]] + 1 + multiset(s[q + 1..])[s[q]];
    assert multiset(S)[s[q]] <= 1;
  }
}
