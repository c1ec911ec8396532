/** e7.1: three writers that count what is written to them. `ByteCounter` adds the number of
    bytes; `WordCounter` and `LineCounter` replace their value with the number of words or
    lines of the bytes written, found by running a scanner over them. */
module Counters {
  import opened Base

  /** A white-space byte as `bufio.ScanWords` sees it: tab, newline, vertical tab, form
      feed, carriage return and space. */
  predicate IsSpace(b: byte)
  {
    b == 9 || b == 10 || b == 11 || b == 12 || b == 13 || b == 32
  }

  const Newline: byte := 10

  /** A word begins at `k`: a non-space byte at the start or right after a space. */
  predicate StartsWord(p: seq<byte>, k: nat)
    requires k < |p|
  {
    !IsSpace(p[k]) && (k == 0 || IsSpace(p[k - 1]))
  }

  /** The number of words of `p`: the number of maximal runs of non-space bytes. */
  function WordCount(p: seq<byte>): nat
  {
    if p == [] then 0 else WordCount(p[..|p| - 1]) + (if StartsWord(p, |p| - 1) then 1 else 0)
  }

  function NewlineCount(p: seq<byte>): nat
  {
    if p == [] then 0 else NewlineCount(p[..|p| - 1]) + (if p[|p| - 1] == Newline then 1 else 0)
  }

  /** The number of lines of `p`: one per newline, plus a last line without one. */
  function LineCount(p: seq<byte>): nat
  {
    NewlineCount(p) + (if p != [] && p[|p| - 1] != Newline then 1 else 0)
  }

  lemma WordCountNext(p: seq<byte>, k: nat)
    requires k < |p|
    ensures WordCount(p[..k + 1]) == WordCount(p[..k]) + (if StartsWord(p, k) then 1 else 0)
  {
    assert p[..k + 1][..k] == p[..k];
  }

  lemma NewlineCountNext(p: seq<byte>, k: nat)
    requires k < |p|
    ensures NewlineCount(p[..k + 1]) == NewlineCount(p[..k]) + (if p[k] == Newline then 1 else 0)
  {
    assert p[..k + 1][..k] == p[..k];
  }

  /** `s.Split(bufio.ScanWords); for s.Scan() { ct++ }`: skip spaces, take a word, repeat. */
  method CountWords(p: seq<byte>) returns (ct: nat)
    ensures ct == WordCount(p)
  {
    ct := 0;
    var i := 0;
    while i < |p|
      invariant 0 <= i <= |p|
      invariant ct == WordCount(p[..i])
      invariant 0 < i < |p| ==> IsSpace(p[i - 1]) || IsSpace(p[i])
    {
      while i < |p| && IsSpace(p[i])
        invariant 0 <= i <= |p|
        invariant ct == WordCount(p[..i])
        invariant 0 < i < |p| ==> IsSpace(p[i - 1]) || IsSpace(p[i])
      {
        WordCountNext(p, i);
        i := i + 1;
      }
      if i < |p| {
        WordCountNext(p, i);
        ct := ct + 1;
        var j := i + 1;
        while j < |p| && !IsSpace(p[j])
          invariant i < j <= |p|
          invariant ct == WordCount(p[..j])
          invariant !IsSpace(p[j - 1])
        {
          WordCountNext(p, j);
          j := j + 1;
        }
        i := j;
      }
    }
    assert p[..i] == p;
  }

  /** `for s.Scan() { ct++ }` with the default `bufio.ScanLines`: every newline ends a line,
      and the bytes after the last newline, if any, form one more. */
  method CountLines(p: seq<byte>) returns (ct: nat)
    ensures ct == LineCount(p)
  {
    ct := 0;
    var i := 0;
    while i < |p|
      invariant 0 <= i <= |p|
      invariant ct == LineCount(p[..i])
      invariant 0 < i < |p| ==> p[i - 1] == Newline
    {
      var j := i;
      while j < |p| && p[j] != Newline
        invariant i <= j <= |p|
        invariant NewlineCount(p[..j]) == NewlineCount(p[..i])
        invariant j > i ==> p[j - 1] != Newline
      {
        NewlineCountNext(p, j);
        j := j + 1;
      }
      ct := ct + 1;
      if j < |p| {
        NewlineCountNext(p, j);
        i := j + 1;
      } else {
        i := j;
      }
    }
    assert p[..i] == p;
  }

  /** A space between two texts keeps their words apart: no word spans it. */
  lemma {:induction false} WordsSeparatedBySpace(a: seq<byte>, b: seq<byte>)
    ensures WordCount(a + [32] + b) == WordCount(a) + WordCount(b)
    decreases |b|
  {
    var s := a + [32] + b;
    if b == [] {
      assert s[..|s| - 1] == a;
    } else {
      var b' := b[..|b| - 1];
      assert s[..|s| - 1] == a + [32] + b';
      WordsSeparatedBySpace(a, b');
    }
  }

  lemma {:induction false} NewlineCountAppend(a: seq<byte>, b: seq<byte>)
    ensures NewlineCount(a + b) == NewlineCount(a) + NewlineCount(b)
    decreases |b|
  {
    if b == [] {
      assert a + b == a;
    } else {
      assert (a + b)[..|a + b| - 1] == a + b[..|b| - 1];
      NewlineCountAppend(a, b[..|b| - 1]);
    }
  }

  /** The lines of a text made of complete lines followed by more text add up. */
  lemma LinesAfterNewline(a: seq<byte>, b: seq<byte>)
    ensures LineCount(a + [Newline] + b) == LineCount(a + [Newline]) + LineCount(b)
  {
    NewlineCountAppend(a + [Newline], b);
    if b != [] {
      assert (a + [Newline] + b)[|a + [Newline] + b| - 1] == b[|b| - 1];
    } else {
      assert a + [Newline] + b == a + [Newline];
    }
  }

  function TotalLength(ps: seq<seq<byte>>): nat
  {
    if ps == [] then 0 else TotalLength(ps[..|ps| - 1]) + |ps[|ps| - 1]|
  }

  /** `ByteCounter`: the number of bytes written since it was zero. */
  class ByteCounter {
    var count: int
    ghost var written: seq<seq<byte>>

    /** The count is the total length of what was written since the last reset. */
    ghost predicate Valid()
      reads this
    {
      count == TotalLength(written)
    }

    /** `var b ByteCounter`: the zero value. */
    constructor ()
      ensures count == 0 && written == [] && Valid()
    {
      count := 0;
      written := [];
    }

    /** `b = 0`. */
    method Reset()
      modifies this
      ensures count == 0 && written == [] && Valid()
    {
      count := 0;
      written := [];
    }

    /** `(*ByteCounter).Write(p)`: add `len(p)`, report `len(p)` bytes written, no error. */
    method Write(p: seq<byte>) returns (n: int, err: Option<string>)
      requires Valid()
      modifies this
      ensures count == old(count) + |p| && written == old(written) + [p] && Valid()
      ensures n == |p| && err == None
    {
      count := count + |p|;
      written := written + [p];
      assert written[..|written| - 1] == old(written);
      n, err := |p|, None;
    }
  }

  /** `WordCounter`: the number of words of the last write. */
  class WordCounter {
    var count: int

    constructor ()
      ensures count == 0
    {
      count := 0;
    }

    /** `(*WordCounter).Write(p)`: replace the count with the words of `p`, whatever it was, and
        report that number (the scan runs a second time for the result). */
    method Write(p: seq<byte>) returns (n: int, err: Option<string>)
      modifies this
      ensures count == WordCount(p) && n == WordCount(p) && err == None
    {
      var w := CountWords(p);
      count := w;
      n := CountWords(p);
      err := None;
    }
  }

  /** `LineCounter`: the number of lines of the last write. */
  class LineCounter {
    var count: int

    constructor ()
      ensures count == 0
    {
      count := 0;
    }

    /** `(*LineCounter).Write(p)`: replace the count with the lines of `p`, and report it. */
    method Write(p: seq<byte>) returns (n: int, err: Option<string>)
      modifies this
      ensures count == LineCount(p) && n == LineCount(p) && err == None
    {
      var l := CountLines(p);
      count := l;
      n := CountLines(p);
      err := None;
    }
  }
}
