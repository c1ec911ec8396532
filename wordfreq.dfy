/** e4.9: the frequency of each word of the input. Splitting the input into words is not
    part of this model; the loop is given the words the scanner produces, in order. */
module WordFreq {
  import opened Counting

  /** `wordFreq()`: `count[word]++` for every scanned word. The keys are exactly the words
      seen, each mapped to its number of occurrences (never zero), and the counts add up to
      the number of words. */
  method WordFreq(words: seq<string>) returns (count: map<string, int>)
    ensures count == IncrementAll(map[], words)
    ensures count.Keys == set w | w in words
    ensures forall w | w in count :: count[w] == multiset(words)[w] > 0
    ensures Sum(count) == |words|
  {
    count := map[];
    var i := 0;
    while i < |words|
      invariant 0 <= i <= |words|
      invariant count == IncrementAll(map[], words[..i])
    {
      IncrementAllAppend(map[], words[..i], [words[i]]);
      assert words[..i + 1] == words[..i] + [words[i]];
      assert IncrementAll(count, [words[i]]) == Increment(count, words[i]);
      count := Increment(count, words[i]);
      i := i + 1;
    }
    assert words[..i] == words;
    forall w
      ensures w in count <==> w in words
      ensures w in count ==> count[w] == multiset(words)[w]
    {
      IncrementAllCounts(map[], words, w);
    }
    SumIncrementAll(map[], words);
  }
}
