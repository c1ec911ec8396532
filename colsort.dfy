/** A table with a stateful multi-tier sort: the primary sort key is the most recently clicked
    column head, the secondary key the one clicked before it, and so on. `sortOrder` maps each
    column to its recency rank (0 = most recent). */
module ColSort {
  import opened Base
  import opened Lex
  import opened Sorting

  /** A song. `length` is a `time.Duration`: a number of nanoseconds. */
  datatype Track = Track(title: string, artist: string, album: string, year: int, length: int)

  // The five sort-key functions. Each answers (x.f < y.f, 1) when the field differs and
  // (false, 0) when it is equal, so that the next key is consulted.

  function SortTitle(x: Track, y: Track): (r: (bool, int))
    ensures r.1 == (if x.title != y.title then 1 else 0)
    ensures r.0 <==> LexLess(x.title, y.title)
  {
    LexLessIrreflexive(x.title);
    if x.title != y.title then (LexLess(x.title, y.title), 1) else (false, 0)
  }

  function SortArtist(x: Track, y: Track): (r: (bool, int))
    ensures r.1 == (if x.artist != y.artist then 1 else 0)
    ensures r.0 <==> LexLess(x.artist, y.artist)
  {
    LexLessIrreflexive(x.artist);
    if x.artist != y.artist then (LexLess(x.artist, y.artist), 1) else (false, 0)
  }

  function SortAlbum(x: Track, y: Track): (r: (bool, int))
    ensures r.1 == (if x.album != y.album then 1 else 0)
    ensures r.0 <==> LexLess(x.album, y.album)
  {
    LexLessIrreflexive(x.album);
    if x.album != y.album then (LexLess(x.album, y.album), 1) else (false, 0)
  }

  function SortYear(x: Track, y: Track): (r: (bool, int))
    ensures r.1 == (if x.year != y.year then 1 else 0)
    ensures r.0 <==> x.year < y.year
  {
    if x.year != y.year then (x.year < y.year, 1) else (false, 0)
  }

  function SortLength(x: Track, y: Track): (r: (bool, int))
    ensures r.1 == (if x.length != y.length then 1 else 0)
    ensures r.0 <==> x.length < y.length
  {
    if x.length != y.length then (x.length < y.length, 1) else (false, 0)
  }

  /** Which of the five key functions an entry carries. */
  datatype KeyFunc = TitleKey | ArtistKey | AlbumKey | YearKey | LengthKey

  function Apply(f: KeyFunc, x: Track, y: Track): (bool, int)
  {
    match f
    case TitleKey => SortTitle(x, y)
    case ArtistKey => SortArtist(x, y)
    case AlbumKey => SortAlbum(x, y)
    case YearKey => SortYear(x, y)
    case LengthKey => SortLength(x, y)
  }

  /** The value of one column of a track. */
  datatype FieldValue = Text(text: string) | Number(number: int)

  function Field(f: KeyFunc, t: Track): FieldValue
  {
    match f
    case TitleKey => Text(t.title)
    case ArtistKey => Text(t.artist)
    case AlbumKey => Text(t.album)
    case YearKey => Number(t.year)
    case LengthKey => Number(t.length)
  }

  /** The natural order of a column: strings as Go's `<` orders them, numbers by value. */
  predicate FieldLess(a: FieldValue, b: FieldValue)
  {
    if a.Text? && b.Text? then LexLess(a.text, b.text)
    else if a.Number? && b.Number? then a.number < b.number
    else false
  }

  /** Every key function reports whether its column differs and, if so, the column's order. */
  lemma ApplyMeaning(f: KeyFunc, x: Track, y: Track)
    ensures Apply(f, x, y).1 == (if Field(f, x) != Field(f, y) then 1 else 0)
    ensures Apply(f, x, y).0 == FieldLess(Field(f, x), Field(f, y))
  {
  }

  lemma FieldLessStrictTotal(f: KeyFunc, x: Track, y: Track, z: Track)
    ensures !FieldLess(Field(f, x), Field(f, x))
    ensures FieldLess(Field(f, x), Field(f, y)) ==> !FieldLess(Field(f, y), Field(f, x))
    ensures FieldLess(Field(f, x), Field(f, y)) && FieldLess(Field(f, y), Field(f, z)) ==>
              FieldLess(Field(f, x), Field(f, z))
    ensures Field(f, x) == Field(f, y) || FieldLess(Field(f, x), Field(f, y)) ||
              FieldLess(Field(f, y), Field(f, x))
  {
    var a, b, c := Field(f, x), Field(f, y), Field(f, z);
    if a.Text? {
      LexLessIrreflexive(a.text);
      LexLessTotal(a.text, b.text);
      if LexLess(a.text, b.text) {
        LexLessAsymmetric(a.text, b.text);
        if LexLess(b.text, c.text) {
          LexLessTransitive(a.text, b.text, c.text);
        }
      }
    }
  }

  /** One column head, its key function and its rank in the sort order. */
  datatype Entry = Entry(key: string, func: KeyFunc, val: int)

  /** The comparator the `less` closure of `main` computes for a given key order `es`: the
      first key whose columns differ decides; if none differs, x is not before y. */
  predicate Precedes(es: seq<Entry>, x: Track, y: Track)
    decreases |es|
  {
    if es == [] then false
    else
      var (b, p) := Apply(es[0].func, x, y);
      if p == 1 then b else Precedes(es[1..], x, y)
  }

  /** x and y agree on the columns of the first `k` keys. */
  ghost predicate AgreeBefore(es: seq<Entry>, k: int, x: Track, y: Track)
    requires 0 <= k <= |es|
  {
    forall j | 0 <= j < k :: Field(es[j].func, x) == Field(es[j].func, y)
  }

  /** The composed comparator is the lexicographic order of the columns, taken in key order. */
  lemma {:induction false} PrecedesFirstDifference(es: seq<Entry>, x: Track, y: Track)
    ensures Precedes(es, x, y) <==>
              exists k | 0 <= k < |es| :: AgreeBefore(es, k, x, y) &&
                FieldLess(Field(es[k].func, x), Field(es[k].func, y))
    decreases |es|
  {
    if es != [] {
      ApplyMeaning(es[0].func, x, y);
      PrecedesFirstDifference(es[1..], x, y);
      if Field(es[0].func, x) == Field(es[0].func, y) {
        if Precedes(es, x, y) {
          var k :| 0 <= k < |es[1..]| && AgreeBefore(es[1..], k, x, y) &&
                   FieldLess(Field(es[1..][k].func, x), Field(es[1..][k].func, y));
          assert AgreeBefore(es, k + 1, x, y);
        } else {
          forall k | 0 <= k < |es| && AgreeBefore(es, k, x, y)
            ensures !FieldLess(Field(es[k].func, x), Field(es[k].func, y))
          {
            FieldLessStrictTotal(es[0].func, x, y, y);
            if k > 0 {
              assert AgreeBefore(es[1..], k - 1, x, y);
            }
          }
        }
      } else {
        if !Precedes(es, x, y) {
          forall k | 0 <= k < |es| && AgreeBefore(es, k, x, y)
            ensures !FieldLess(Field(es[k].func, x), Field(es[k].func, y))
          {
            assert k == 0;
          }
        } else {
          assert AgreeBefore(es, 0, x, y);
        }
      }
    }
  }

  /** Tracks that agree on every key column are never ordered: in particular the comparator
      is irreflexive. */
  lemma {:induction false} PrecedesAllEqual(es: seq<Entry>, x: Track, y: Track)
    requires forall j | 0 <= j < |es| :: Field(es[j].func, x) == Field(es[j].func, y)
    ensures !Precedes(es, x, y)
    decreases |es|
  {
    if es != [] {
      ApplyMeaning(es[0].func, x, y);
      PrecedesAllEqual(es[1..], x, y);
    }
  }

  /** The composed comparator is a strict weak order: asymmetric, and "not before" is transitive. */
  lemma {:induction false} PrecedesStrictWeak(es: seq<Entry>, x: Track, y: Track, z: Track)
    ensures Precedes(es, x, y) ==> !Precedes(es, y, x)
    ensures !Precedes(es, y, x) && !Precedes(es, z, y) ==> !Precedes(es, z, x)
    decreases |es|
  {
    if es != [] {
      var f := es[0].func;
      ApplyMeaning(f, x, y); ApplyMeaning(f, y, x);
      ApplyMeaning(f, y, z); ApplyMeaning(f, z, y);
      ApplyMeaning(f, x, z); ApplyMeaning(f, z, x);
      FieldLessStrictTotal(f, x, y, z);
      FieldLessStrictTotal(f, y, z, x);
      FieldLessStrictTotal(f, z, x, y);
      FieldLessStrictTotal(f, x, z, y);
      FieldLessStrictTotal(f, y, x, z);
      FieldLessStrictTotal(f, z, y, x);
      PrecedesStrictWeak(es[1..], x, y, z);
    }
  }

  /** The `less` closure of `main`: walk the keys in order and return the verdict of the first
      key function that reports a difference. */
  method ComposedLess(es: seq<Entry>, x: Track, y: Track) returns (b: bool)
    ensures b == Precedes(es, x, y)
  {
    var k := 0;
    while k < |es|
      invariant 0 <= k <= |es|
      invariant Precedes(es, x, y) == Precedes(es[k..], x, y)
    {
      assert es[k..][1..] == es[k + 1..];
      var (less, p) := Apply(es[k].func, x, y);
      if p == 1 {
        return less;
      }
      k := k + 1;
    }
    b := false;
  }

  const Columns: set<string> := {"Title", "Artist", "Album", "Year", "Length"}

  /** The initial `sortOrder`. */
  const InitialOrder: map<string, int> :=
    map["Title" := 0, "Artist" := 1, "Album" := 2, "Year" := 3, "Length" := 4]

  /** `sortFuncs`: the key function of each column. */
  const SortFuncs: map<string, KeyFunc> :=
    map["Title" := TitleKey, "Artist" := ArtistKey, "Album" := AlbumKey,
        "Year" := YearKey, "Length" := LengthKey]

  /** The ranks after clicking `head`: it becomes 0 and every other column moves down by one. */
  function Selected(ranks: map<string, int>, head: string): map<string, int>
  {
    map k | k in ranks :: if k == head then 0 else ranks[k] + 1
  }

  /** No two columns share a rank, and no rank is negative. */
  ghost predicate DistinctRanks(ranks: map<string, int>)
  {
    && (forall k | k in ranks :: ranks[k] >= 0)
    && (forall j, k | j in ranks && k in ranks && j != k :: ranks[j] != ranks[k])
  }

  /** Clicking keeps the columns and their distinct ranks; a clicked column becomes the unique
      minimum, and clicking an unknown name just moves every column down. */
  lemma SelectedRanks(ranks: map<string, int>, head: string)
    requires DistinctRanks(ranks)
    ensures Selected(ranks, head).Keys == ranks.Keys
    ensures DistinctRanks(Selected(ranks, head))
    ensures head in ranks ==>
              (Selected(ranks, head)[head] == 0 &&
               forall k | k in ranks && k != head :: Selected(ranks, head)[k] > 0)
    ensures head !in ranks ==> forall k | k in ranks :: Selected(ranks, head)[k] == ranks[k] + 1
  {
  }

  /** The ranks after clicking `heads` in order. */
  function Clicks(ranks: map<string, int>, heads: seq<string>): (r: map<string, int>)
    ensures r.Keys == ranks.Keys
    decreases |heads|
  {
    if heads == [] then ranks else Selected(Clicks(ranks, heads[..|heads| - 1]), heads[|heads| - 1])
  }

  /** A column's rank is the number of clicks since it was last clicked; a column never clicked
      has moved down once per click. */
  lemma {:induction false} ClicksRank(ranks: map<string, int>, heads: seq<string>, c: string)
    requires c in ranks
    ensures c in Clicks(ranks, heads)
    ensures Clicks(ranks, heads)[c] ==
              if c in heads then |heads| - 1 - LastIndexOf(heads, c) else ranks[c] + |heads|
    decreases |heads|
  {
    if heads != [] {
      var init := heads[..|heads| - 1];
      assert heads == init + [heads[|heads| - 1]];
      ClicksRank(ranks, init, c);
    }
  }

  /** From any distinct ranks (the initial 0..4 among them), any sequence of clicks keeps the
      ranks distinct. */
  lemma {:induction false} ClicksDistinct(ranks: map<string, int>, heads: seq<string>)
    requires DistinctRanks(ranks)
    ensures DistinctRanks(Clicks(ranks, heads))
    decreases |heads|
  {
    if heads != [] {
      ClicksDistinct(ranks, heads[..|heads| - 1]);
      SelectedRanks(Clicks(ranks, heads[..|heads| - 1]), heads[|heads| - 1]);
    }
  }

  /** The multi-tier order: a column clicked more recently than another ranks before it, and
      every clicked column ranks before every column never clicked. */
  lemma RecencyOrder(ranks: map<string, int>, heads: seq<string>, a: string, b: string)
    requires DistinctRanks(ranks) && a in ranks && b in ranks && a in heads
    requires b in heads ==> LastIndexOf(heads, b) < LastIndexOf(heads, a)
    ensures Clicks(ranks, heads)[a] < Clicks(ranks, heads)[b]
  {
    ClicksRank(ranks, heads, a);
    ClicksRank(ranks, heads, b);
  }

  /** The entries `sortFuncKeys` collects: one per column, with its key function and rank. */
  ghost function EntrySet(ranks: map<string, int>): set<Entry>
  {
    set k | k in ranks && k in SortFuncs :: Entry(k, SortFuncs[k], ranks[k])
  }

  /** `entries.Less`: by rank. */
  function RankCompare(x: Entry, y: Entry): Outcome
  {
    Ok(x.val < y.val)
  }

  /** The append loop of `sortFuncKeys`: one entry per column, in map order. */
  method CollectRanks(ranks: map<string, int>) returns (collected: seq<Entry>)
    requires ranks.Keys <= SortFuncs.Keys
    ensures multiset(collected) == multiset(EntrySet(ranks))
  {
    collected := [];
    var rest := ranks.Keys;
    while rest != {}
      invariant rest <= ranks.Keys
      invariant multiset(collected) ==
                  multiset(set j | j in ranks && j in SortFuncs && j !in rest :: Entry(j, SortFuncs[j], ranks[j]))
      decreases rest
    {
      var k :| k in rest;
      ghost var done := set j | j in ranks && j in SortFuncs && j !in rest :: Entry(j, SortFuncs[j], ranks[j]);
      collected := collected + [Entry(k, SortFuncs[k], ranks[k])];
      rest := rest - {k};
      assert (set j | j in ranks && j in SortFuncs && j !in rest :: Entry(j, SortFuncs[j], ranks[j]))
             == done + {Entry(k, SortFuncs[k], ranks[k])};
      assert Entry(k, SortFuncs[k], ranks[k]) !in done;
    }
    assert (set j | j in ranks && j in SortFuncs && j !in rest :: Entry(j, SortFuncs[j], ranks[j]))
           == EntrySet(ranks);
  }

  /** The table state: the global `sortOrder`. */
  class SortOrder {
    var ranks: map<string, int>

    constructor ()
      ensures ranks == InitialOrder
    {
      ranks := InitialOrder;
    }

    /** `selectKey(head)`: visit every column once, zeroing `head` and incrementing the rest. */
    method SelectKey(head: string) returns (r: map<string, int>)
      modifies this
      ensures ranks == Selected(old(ranks), head) && r == ranks
    {
      ghost var ranks0 := ranks;
      var rest := ranks.Keys;
      while rest != {}
        invariant rest <= ranks0.Keys && ranks.Keys == ranks0.Keys
        invariant forall k | k in ranks0 ::
                    ranks[k] == if k in rest then ranks0[k] else Selected(ranks0, head)[k]
        decreases rest
      {
        var k :| k in rest;
        if k == head {
          ranks := ranks[k := 0];
        } else {
          ranks := ranks[k := ranks[k] + 1];
        }
        rest := rest - {k};
      }
      r := ranks;
    }

    /** `sortFuncKeys()`: one entry per column, carrying its key function, ordered by rank. */
    method SortFuncKeys() returns (es: seq<Entry>)
      requires ranks.Keys <= SortFuncs.Keys
      ensures multiset(es) == multiset(EntrySet(ranks))
      ensures forall p, q | 0 <= p < q < |es| :: es[p].val <= es[q].val
    {
      var collected := CollectRanks(ranks);
      var ok;
      ok, es := SortSlice(collected, RankCompare);
      assert SortedBy(RankCompare, es);
    }

    /** `main` after its `selectKey` calls: sort the tracks with the composed comparator, using
        the keys in rank order. */
    method SortTracks(tracks: array<Track>) returns (es: seq<Entry>)
      requires ranks.Keys <= SortFuncs.Keys
      modifies tracks
      ensures multiset(es) == multiset(EntrySet(ranks))
      ensures forall p, q | 0 <= p < q < |es| :: es[p].val <= es[q].val
      ensures multiset(tracks[..]) == multiset(old(tracks[..]))
      ensures forall p, q | 0 <= p < q < tracks.Length :: !Precedes(es, tracks[q], tracks[p])
    {
      es := SortFuncKeys();
      var cmp := (x: Track, y: Track) => Ok(Precedes(es, x, y));
      forall x, y, z | x in tracks[..] && y in tracks[..] && z in tracks[..]
        ensures Less(cmp, x, y) ==> !Less(cmp, y, x)
        ensures !Less(cmp, y, x) && !Less(cmp, z, y) ==> !Less(cmp, z, x)
      {
        PrecedesStrictWeak(es, x, y, z);
      }
      var ok := InsertionSort(tracks, cmp);
      assert SortedBy(cmp, tracks[..]);
    }
  }
}
