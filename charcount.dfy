/** e4.8: count the letters, numbers, punctuation marks and symbols of the input per rune,
    the UTF-8 encoding lengths, and the invalid encodings. Decoding and the Unicode category
    tables are not part of this model: the loop is given what each `ReadRune` returned before
    end of input (a rune and its size in bytes), and the four `unicode.Is*` tests are given
    as predicates. */
module CharCount {
  import opened Counting

  const UTFMax := 4
  const ReplacementChar := 0xFFFD

  /** One `ReadRune` result: the rune and the number of bytes it took. A read that fails with
      an error other than end of input returns rune 0 and size 0, and the loop goes on with it. */
  datatype Decoded = Decoded(r: int, n: int)

  /** What `ReadRune` can return: a size of at most `UTFMax` bytes, and rune 0 when nothing was
      read. */
  predicate ValidSize(d: Decoded)
  {
    && 0 <= d.n <= UTFMax
    && (d.n == 0 ==> d.r == 0)
  }

  /** `unicode.IsLetter`, `unicode.IsNumber`, `unicode.IsPunct`, `unicode.IsSymbol`. */
  datatype Classes = Classes(isLetter: int -> bool, isNumber: int -> bool, isPunct: int -> bool, isSymbol: int -> bool)

  datatype Category = Letter | Number | Punct | Symbol | Uncategorized

  /** The first of the four tests a rune passes, in the order the loop tries them. */
  function CategoryOf(cls: Classes, r: int): Category
  {
    if cls.isLetter(r) then Letter
    else if cls.isNumber(r) then Number
    else if cls.isPunct(r) then Punct
    else if cls.isSymbol(r) then Symbol
    else Uncategorized
  }

  /** `r == unicode.ReplacementChar && n == 1`: an invalid encoding. */
  predicate IsInvalid(d: Decoded)
  {
    d.r == ReplacementChar && d.n == 1
  }

  /** The loop's state: the four count maps, the length histogram and the invalid count. */
  datatype Tally = Tally(
    letters: map<int, int>,
    numbers: map<int, int>,
    puncts: map<int, int>,
    symbols: map<int, int>,
    utflen: seq<int>,
    invalid: int)

  predicate WellShaped(t: Tally)
  {
    |t.utflen| == UTFMax + 1
  }

  const Start := Tally(map[], map[], map[], map[], [0, 0, 0, 0, 0], 0)

  /** The count map of one category. */
  function CountsOf(t: Tally, c: Category): map<int, int>
    requires c != Uncategorized
  {
    match c
    case Letter => t.letters
    case Number => t.numbers
    case Punct => t.puncts
    case Symbol => t.symbols
  }

  /** `t` with the count map of category `c` replaced by `m`. */
  function WithCounts(t: Tally, c: Category, m: map<int, int>): (r: Tally)
    requires c != Uncategorized
    ensures r.utflen == t.utflen && r.invalid == t.invalid
    ensures forall c' | c' != Uncategorized :: CountsOf(r, c') == if c' == c then m else CountsOf(t, c')
  {
    match c
    case Letter => t.(letters := m)
    case Number => t.(numbers := m)
    case Punct => t.(puncts := m)
    case Symbol => t.(symbols := m)
  }

  /** One turn of the loop. */
  function Step(cls: Classes, t: Tally, d: Decoded): (r: Tally)
    requires WellShaped(t) && ValidSize(d)
    ensures WellShaped(r)
  {
    if IsInvalid(d) then t.(invalid := t.invalid + 1)
    else
      var c := CategoryOf(cls, d.r);
      var t' := if c == Uncategorized then t else WithCounts(t, c, Increment(CountsOf(t, c), d.r));
      t'.(utflen := t'.utflen[d.n := t'.utflen[d.n] + 1])
  }

  /** The state after the loop has read `input`. */
  function Tallied(cls: Classes, input: seq<Decoded>): (r: Tally)
    requires forall k | 0 <= k < |input| :: ValidSize(input[k])
    ensures WellShaped(r)
  {
    if input == [] then Start
    else Step(cls, Tallied(cls, input[..|input| - 1]), input[|input| - 1])
  }

  /** The category tests of one turn: increment the rune's count in the map of the first
      category it belongs to, if any. */
  method Categorize(cls: Classes, r: int, ghost t: Tally,
                    letters: map<int, int>, numbers: map<int, int>, puncts: map<int, int>, symbols: map<int, int>)
    returns (letters': map<int, int>, numbers': map<int, int>, puncts': map<int, int>, symbols': map<int, int>)
    requires t.letters == letters && t.numbers == numbers && t.puncts == puncts && t.symbols == symbols
    ensures var c := CategoryOf(cls, r);
            var u := if c == Uncategorized then t else WithCounts(t, c, Increment(CountsOf(t, c), r));
            u == t.(letters := letters', numbers := numbers', puncts := puncts', symbols := symbols')
  {
    letters', numbers', puncts', symbols' := letters, numbers, puncts, symbols;
    if cls.isLetter(r) {
      letters' := Increment(letters, r);
    } else if cls.isNumber(r) {
      numbers' := Increment(numbers, r);
    } else if cls.isPunct(r) {
      puncts' := Increment(puncts, r);
    } else if cls.isSymbol(r) {
      symbols' := Increment(symbols, r);
    }
  }

  /** The read loop of `main`, up to end of input. */
  method CharCount(cls: Classes, input: seq<Decoded>)
    returns (letters: map<int, int>, numbers: map<int, int>, puncts: map<int, int>, symbols: map<int, int>,
             utflen: seq<int>, invalid: int)
    requires forall k | 0 <= k < |input| :: ValidSize(input[k])
    ensures Tally(letters, numbers, puncts, symbols, utflen, invalid) == Tallied(cls, input)
  {
    letters, numbers, puncts, symbols := map[], map[], map[], map[];
    var hist := new int[UTFMax + 1](_ => 0);
    invalid := 0;
    var i := 0;
    assert hist[..] == [0, 0, 0, 0, 0];
    while i < |input|
      invariant 0 <= i <= |input|
      invariant Tally(letters, numbers, puncts, symbols, hist[..], invalid) == Tallied(cls, input[..i])
    {
      assert input[..i + 1][..i] == input[..i];
      var d := input[i];
      ghost var t := Tally(letters, numbers, puncts, symbols, hist[..], invalid);
      if d.r == ReplacementChar && d.n == 1 {
        invalid := invalid + 1;
      } else {
        letters, numbers, puncts, symbols := Categorize(cls, d.r, t, letters, numbers, puncts, symbols);
        hist[d.n] := hist[d.n] + 1;
      }
      i := i + 1;
    }
    assert input[..i] == input;
    utflen := hist[..];
  }

  /** An invalid encoding increments `invalid` and nothing else: no category map and no
      length bucket. */
  lemma InvalidCountedApart(cls: Classes, t: Tally, d: Decoded)
    requires WellShaped(t) && ValidSize(d) && IsInvalid(d)
    ensures Step(cls, t, d).invalid == t.invalid + 1
    ensures Step(cls, t, d).utflen == t.utflen
    ensures forall c | c != Uncategorized :: CountsOf(Step(cls, t, d), c) == CountsOf(t, c)
  {
  }

  /** Any other rune increments its length bucket exactly once, increments the count of at
      most one category (the first test it passes) and leaves `invalid` alone. */
  lemma ValidRuneCounted(cls: Classes, t: Tally, d: Decoded)
    requires WellShaped(t) && ValidSize(d) && !IsInvalid(d)
    ensures Step(cls, t, d).invalid == t.invalid
    ensures Step(cls, t, d).utflen == t.utflen[d.n := t.utflen[d.n] + 1]
    ensures forall c | c != Uncategorized ::
              CountsOf(Step(cls, t, d), c) ==
                (if c == CategoryOf(cls, d.r) then Increment(CountsOf(t, c), d.r) else CountsOf(t, c))
  {
  }

  /** Every rune in a category map belongs to that category: a rune passes only its first
      test, so it lands in at most one map. */
  ghost predicate InOwnCategory(cls: Classes, t: Tally)
  {
    forall c, r | c != Uncategorized && r in CountsOf(t, c) :: CategoryOf(cls, r) == c
  }

  lemma {:induction false} TalliedInOwnCategory(cls: Classes, input: seq<Decoded>)
    requires forall k | 0 <= k < |input| :: ValidSize(input[k])
    ensures InOwnCategory(cls, Tallied(cls, input))
    decreases |input|
  {
    if input != [] {
      var init := input[..|input| - 1];
      TalliedInOwnCategory(cls, init);
      StepKeepsOwnCategory(cls, Tallied(cls, init), input[|input| - 1]);
    }
  }

  lemma StepKeepsOwnCategory(cls: Classes, t: Tally, d: Decoded)
    requires WellShaped(t) && ValidSize(d) && InOwnCategory(cls, t)
    ensures InOwnCategory(cls, Step(cls, t, d))
  {
    var s := Step(cls, t, d);
    if IsInvalid(d) {
      InvalidCountedApart(cls, t, d);
    } else {
      ValidRuneCounted(cls, t, d);
      forall c, r | c != Uncategorized && r in CountsOf(s, c)
        ensures CategoryOf(cls, r) == c
      {
        if c == CategoryOf(cls, d.r) && r != d.r {
          assert r in CountsOf(t, c);
        }
      }
    }
  }

  /** No rune is counted in two categories. */
  lemma CategoriesDisjoint(cls: Classes, input: seq<Decoded>, r: int, c1: Category, c2: Category)
    requires forall k | 0 <= k < |input| :: ValidSize(input[k])
    requires c1 != Uncategorized && c2 != Uncategorized && c1 != c2
    ensures r in CountsOf(Tallied(cls, input), c1) ==> r !in CountsOf(Tallied(cls, input), c2)
  {
    TalliedInOwnCategory(cls, input);
    var t := Tallied(cls, input);
    if r in CountsOf(t, c1) {
      assert CategoryOf(cls, r) == c1;
    }
  }

  function SumSeq(s: seq<int>): int
  {
    if s == [] then 0 else SumSeq(s[..|s| - 1]) + s[|s| - 1]
  }

  lemma {:induction false} SumSeqUpdate(s: seq<int>, k: nat, v: int)
    requires k < |s|
    ensures SumSeq(s[k := v]) == SumSeq(s) - s[k] + v
    decreases |s|
  {
    var last := |s| - 1;
    if k < last {
      assert s[k := v][..last] == s[..last][k := v];
      SumSeqUpdate(s[..last], k, v);
    } else {
      assert s[k := v][..last] == s[..last];
    }
  }

  lemma {:induction false} SumSeqZeros(s: seq<int>)
    requires forall k | 0 <= k < |s| :: s[k] == 0
    ensures SumSeq(s) == 0
    decreases |s|
  {
    if s != [] {
      SumSeqZeros(s[..|s| - 1]);
    }
  }

  /** Every read is counted once: as invalid or in one length bucket. */
  lemma {:induction false} EveryReadCounted(cls: Classes, input: seq<Decoded>)
    requires forall k | 0 <= k < |input| :: ValidSize(input[k])
    ensures Tallied(cls, input).invalid + SumSeq(Tallied(cls, input).utflen) == |input|
    decreases |input|
  {
    if input != [] {
      var init := input[..|input| - 1];
      var d := input[|input| - 1];
      var t := Tallied(cls, init);
      EveryReadCounted(cls, init);
      if IsInvalid(d) {
        InvalidCountedApart(cls, t, d);
      } else {
        ValidRuneCounted(cls, t, d);
        SumSeqUpdate(t.utflen, d.n, t.utflen[d.n] + 1);
      }
    } else {
      SumSeqZeros(Start.utflen);
    }
  }

  /** Bucket 0 counts only the failed reads: for input with no read errors it stays zero. */
  lemma {:induction false} NoErrorsNoZeroBucket(cls: Classes, input: seq<Decoded>)
    requires forall k | 0 <= k < |input| :: 1 <= input[k].n <= UTFMax
    ensures Tallied(cls, input).utflen[0] == 0
    decreases |input|
  {
    if input != [] {
      NoErrorsNoZeroBucket(cls, input[..|input| - 1]);
    }
  }

  /** For input read without errors, `invalid` plus buckets 1 to `UTFMax` is the number of
      runes read. */
  lemma RunesAccountedFor(cls: Classes, input: seq<Decoded>)
    requires forall k | 0 <= k < |input| :: 1 <= input[k].n <= UTFMax
    ensures Tallied(cls, input).invalid + SumSeq(Tallied(cls, input).utflen[1..]) == |input|
  {
    var u := Tallied(cls, input).utflen;
    EveryReadCounted(cls, input);
    NoErrorsNoZeroBucket(cls, input);
    assert u == [u[0]] + u[1..];
    SumSeqFirst(u);
  }

  lemma {:induction false} SumSeqFirst(s: seq<int>)
    requires s != []
    ensures SumSeq(s) == s[0] + SumSeq(s[1..])
    decreases |s|
  {
    if |s| > 1 {
      SumSeqFirst(s[..|s| - 1]);
      assert s[..|s| - 1][1..] == s[1..][..|s[1..]| - 1];
    }
  }

  /** The `len count` rows: one per bucket from 1 to `UTFMax`, bucket 0 skipped. */
  method LengthRows(utflen: seq<int>) returns (rows: seq<(int, int)>)
    ensures |rows| == if utflen == [] then 0 else |utflen| - 1
    ensures forall k | 0 <= k < |rows| :: rows[k] == (k + 1, utflen[k + 1])
  {
    rows := [];
    var i := 0;
    while i < |utflen|
      invariant 0 <= i <= |utflen|
      invariant |rows| == if i == 0 then 0 else i - 1
      invariant forall k | 0 <= k < |rows| :: rows[k] == (k + 1, utflen[k + 1])
    {
      if i > 0 {
        rows := rows + [(i, utflen[i])];
      }
      i := i + 1;
    }
  }
}
