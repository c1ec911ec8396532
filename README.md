# the_go_book exercises, modelled in Dafny

This project models the algorithmic core of a set of exercises from "The Go Programming
Language":

- **mapsort**: sorts the entries of a map of dynamically typed values by key or by value. The
  comparison panics on kinds it does not handle.
- **colsort**: sorts a table of tracks by several columns, most recently clicked first.
- **clockwall**: keeps the latest reading of each clock and prints the readings sorted as
  strings, which is time order when every reading is a full `HH:MM:SS` line.
- **removeDups** (e4.5): removes adjacent duplicate strings from a slice in place.
- **findlinks** (e5.1): collects the `href` of every anchor element in an HTML tree, with mutual
  recursion between `visit` and `nextNode`, and with the original loop-based `visitOG`.
- **mapHtmlNode** (e5.2): counts the elements of an HTML tree by tag name.
- **wordFreq** (e4.9): counts how often each word occurs.
- **charcount** (e4.8): tallies runes into letter, number, punctuation and symbol counts, a
  histogram of encoding lengths, and the number of invalid encodings.
- **counters** (e7.1): the `io.Writer` byte, word and line counters.

Shared modules:

- `Base`: `Option`, bytes, and the last index of an element.
- `Lex`: Go's byte-wise string `<`.
- `Sorting`: `sort.Sort` with a comparator that may panic.
- `Counting`: the `m[k]++` idiom folded over a sequence, and the sum of a map's counts.

`sort.Sort` is modelled as the insertion sort Go itself uses on short inputs. The model proves
three things about it:

- The result is a permutation of the input.
- When the comparator is a strict weak order on the input and never panics, the result is
  sorted.
- A panic can only come from a comparison of two of the input's elements.

Imperative code keeps its form:

- Arrays are sorted in place.
- `removeDups` shifts an array.
- The clock table, the column ranks, the element map and the counters are classes whose methods
  update fields.
- Loops are `while` loops proved against recursive specification functions.

## Model

Generic proof helpers with no counterpart in the source (`Counting.PickKey`, `Sorting.InMultiset`,
`Sorting.NoRepeats`, `Lex.FirstDifference`, `AdjacentDups.SubsequenceReflexive`,
`CharCount.SumSeqZeros`, `CharCount.SumSeqFirst`, and the like) have no row.

| member | source | states |
|---|---|---|
| Base.LastIndexOf | e8.1/clockwall/clockwall.go:74 | the last position of an element: it holds that element and the element does not occur after it (used for "latest update wins") |
| Lex.LexLessIrreflexive | e7.8/colsort.go:146-151 | no string is less than itself under Go's string `<` |
| Lex.LexLessAsymmetric | e7.8/colsort.go:146-151 | if `a < b` then not `b < a` |
| Lex.LexLessTransitive | e7.8/colsort.go:146-151 | string `<` is transitive |
| Lex.LexLessTotal | e7.8/colsort.go:146-151 | any two distinct strings are ordered one way or the other |
| Lex.LexLessAt | e8.1/clockwall/clockwall.go:88 | two strings sharing a prefix up to `k` and differing at `k` are ordered by their bytes at `k` |
| Sorting.Swap | e8.1/mapsort/mapsort.go:104 | exchanges two array elements and changes nothing else |
| Sorting.InsertingStep | e8.1/mapsort/mapsort.go:107-114 | swapping a smaller element one place left keeps the insertion-sort invariant |
| Sorting.InsertingDone | e8.1/mapsort/mapsort.go:107-114 | when the inserted element meets a smaller-or-equal left neighbour, the prefix one longer is sorted |
| Sorting.StepLeft | e8.1/mapsort/mapsort.go:104 | one swap step of insertion keeps the multiset and, under a strict weak order, the insertion invariant |
| Sorting.Insert | e8.1/mapsort/mapsort.go:107-114 | inserting element `i` keeps the multiset and extends the sorted prefix; a failure implies a panicking comparison of two input elements |
| Sorting.InsertionSort | e8.1/mapsort/mapsort.go:107-114 | `sort.Sort`: a permutation of the input, it succeeds when no comparison panics, a failure comes from a panicking comparison, and under a strict weak order the result is sorted |
| Sorting.SortSlice | e7.8/colsort.go:128 | the same guarantees for sorting a slice value |
| Counting.Increment | e4.9.go:19 | `m[k]++`: `k` becomes a key, its count goes up by one (from zero when absent), and every other count is unchanged |
| Counting.IncrementAllAppend | e4.9.go:18-20 | counting `a + b` is counting `a`, then counting `b` |
| Counting.IncrementAllCounts | e4.9.go:18-20 | after counting `ks`, each key's count has grown by its number of occurrences in `ks`, and the keys are the old ones plus those of `ks` |
| Counting.SumRemove | e4.9.go:18-20 | the total count splits into one key's count plus the rest |
| Counting.SumIncrement | e4.9.go:19 | `m[k]++` raises the total count by exactly one |
| Counting.SumIncrementAll | e4.9.go:18-20 | counting `ks` raises the total by the length of `ks` |
| MapSort.Compare | e8.1/mapsort/mapsort.go:25-103 | the type switch: it panics exactly when the receiver's kind is unsupported; for equal kinds it gives the kind's natural `<`; for different kinds it gives `false` |
| MapSort.KeyLess | e8.1/mapsort/mapsort.go:25-103 | `KeySort.Less(i, j)`: panics iff key `i` has an unsupported kind, otherwise compares keys by natural order within a kind and answers `false` across kinds |
| MapSort.ValLess | e8.1/mapsort/mapsort.go:120-198 | `ValSort.Less(i, j)`: the same on values |
| MapSort.LessIgnoresOtherField | e8.1/mapsort/mapsort.go:25-198 | `KeySort.Less` reads only keys and `ValSort.Less` reads only values |
| MapSort.NaturalLessStrictTotal | e8.1/mapsort/mapsort.go:27-193 | within one kind, the natural `<` is irreflexive, asymmetric, transitive and total |
| MapSort.KeyCompareOrders | e8.1/mapsort/mapsort.go:25-103 | when all keys share a supported kind, the key comparison never panics and is a strict weak order |
| MapSort.ValCompareOrders | e8.1/mapsort/mapsort.go:120-198 | the same for values |
| MapSort.Collect | e8.1/mapsort/mapsort.go:107-114 | the collected slice holds each map entry exactly once |
| MapSort.EntryOfMap | e8.1/mapsort/mapsort.go:16-19 | every collected entry is a key of the map with its own value |
| MapSort.KeySortMapSort | e8.1/mapsort/mapsort.go:107-114 | `KeySort.MapSort`: it panics only if some key is unsupported and finishes when all are; the result holds every entry exactly once; with keys of one kind it is in strictly increasing key order |
| MapSort.ValSortMapSort | e8.1/mapsort/mapsort.go:202-209 | `ValSort.MapSort`: the same for values, in non-decreasing value order |
| ColSort.SortTitle | e7.8/colsort.go:146-151 | reports a difference iff the titles differ, and `less` iff title `x` < title `y` |
| ColSort.SortArtist | e7.8/colsort.go:153-158 | the same on artists |
| ColSort.SortAlbum | e7.8/colsort.go:160-165 | the same on albums |
| ColSort.SortYear | e7.8/colsort.go:167-172 | the same on years, compared as integers |
| ColSort.SortLength | e7.8/colsort.go:174-179 | the same on lengths, compared as durations |
| ColSort.ApplyMeaning | e7.8/colsort.go:146-179 | each key function compares one field: a difference iff the fields differ, `less` iff the field is smaller |
| ColSort.FieldLessStrictTotal | e7.8/colsort.go:146-179 | each column's order is irreflexive, asymmetric, transitive and total |
| ColSort.PrecedesFirstDifference | e7.8/colsort.go:94-105 | the composed order: `x` precedes `y` iff at the first key (in rank order) where they differ, `x`'s field is smaller |
| ColSort.PrecedesAllEqual | e7.8/colsort.go:94-105 | tracks equal in every key do not precede each other (the closure returns `false`) |
| ColSort.PrecedesStrictWeak | e7.8/colsort.go:94-105 | the composed order is asymmetric and its incomparability is transitive, so it is a valid `sort.Sort` order |
| ColSort.ComposedLess | e7.8/colsort.go:94-105 | the closure's loop returns the verdict of the first key that reports a difference, and `false` otherwise |
| ColSort.SelectedRanks | e7.8/colsort.go:111-120 | a click keeps the columns and the distinctness of their ranks; the clicked column gets rank 0 and every other column a positive rank; an unknown name only moves every rank down |
| ColSort.Clicks | e7.8/colsort.go:111-120 | a sequence of clicks keeps the set of columns |
| ColSort.ClicksRank | e7.8/colsort.go:111-120 | a column's rank is the number of clicks since its last click; a column never clicked has moved down once per click |
| ColSort.ClicksDistinct | e7.8/colsort.go:53-59 | from distinct initial ranks, any sequence of clicks keeps the ranks distinct |
| ColSort.RecencyOrder | e7.8/colsort.go:111-130 | a column clicked more recently ranks before one clicked earlier or never |
| ColSort.CollectRanks | e7.8/colsort.go:123-127 | the collected entries are one per column, with its key function and rank |
| ColSort.SortOrder.constructor | e7.8/colsort.go:53-59 | the initial ranks are Title 0, Artist 1, Album 2, Year 3, Length 4 |
| ColSort.SortOrder.SelectKey | e7.8/colsort.go:111-120 | `selectKey(head)`: the new ranks are `head` at 0 and every other column one further down |
| ColSort.SortOrder.SortFuncKeys | e7.8/colsort.go:123-130 | `sortFuncKeys()`: one entry per column carrying its key function, in non-decreasing rank order |
| ColSort.SortOrder.SortTracks | e7.8/colsort.go:90-105 | sorting the table: the tracks are permuted, and no later track precedes an earlier one under the composed order |
| ClockWall.StrToRune | e8.1/clockwall/clockwall.go:53-57 | the first character of a non-empty string |
| ClockWall.GetVar | e8.1/clockwall/clockwall.go:40-49 | splits `NAME=host:port` at its first `=`: the parts joined by `=` give back the argument and the name has no `=`; without `=` both parts are empty |
| ClockWall.BytesToString | e8.1/clockwall/clockwall.go:89-91 | `string(bytes)`: one character per byte, with the same code |
| ClockWall.ChronologicalOrder | e8.1/clockwall/clockwall.go:88 | for well-formed `HH:MM:SS` readings, string order coincides with time-of-day order |
| ClockWall.LatestReadingWins | e8.1/clockwall/clockwall.go:74 | after a sequence of updates, the table holds exactly the old names plus the updated ones; each updated name holds its last reading and every other name is unchanged |
| ClockWall.SnapshotEntry | e8.1/clockwall/clockwall.go:85-87 | every snapshot entry is a clock of the table with its reading converted to a string |
| ClockWall.ClockTable.constructor | e8.1/clockwall/clockwall.go:22 | the table starts empty |
| ClockWall.ClockTable.Update | e8.1/clockwall/clockwall.go:62-74 | `clocks[tz] = buf[:n]`: the named clock holds the new reading of at most 9 bytes, and every other clock is unchanged |
| ClockWall.ClockTable.UpdateAll | e8.1/clockwall/clockwall.go:68-77 | a sequence of `clocks[tz] = buf[:n]` updates leaves the table that `Updates` describes, so `LatestReadingWins` applies to it |
| ClockWall.EqualReadingsEitherOrder | e8.1/clockwall/clockwall.go:85-91 | two clocks with the same reading may be printed in either order: both orders are permutations of the snapshot, meet every ordering promise of `ShowTimes`, and print differently |
| ClockWall.ClockTable.ShowTimes | e8.1/clockwall/clockwall.go:82-94 | the printed entries are each clock exactly once, in non-decreasing string order of their readings, chronological when all readings are well-formed `HH:MM:SS\n` lines; the output is `name local time: reading` for each entry with nothing added between them (the reading supplies its own newline), then the line of dashes |
| ClockWall.Snapshot | e8.1/clockwall/clockwall.go:85-87 | the collected entries are each clock exactly once |
| ClockWall.SortReadings | e8.1/clockwall/clockwall.go:88 | `sort.Sort(es)` on the `ValSort` snapshot: a permutation in non-decreasing reading order, which is chronological order for well-formed readings |
| ClockWall.Format | e8.1/clockwall/clockwall.go:89-92 | prints `name local time: reading` for each entry in order, then the line of dashes |
| AdjacentDups.ShiftLeft | e4.5.go:14 | `append(str[:i], str[i+1:]...)`: the prefix is kept, the tail moves one place left, and the last slot keeps its old value |
| AdjacentDups.CollapseRemoveStep | e4.5.go:13-14 | removing a duplicate at `i` and then moving on keeps the loop's relation to the as-written result |
| AdjacentDups.CollapseKeepStep | e4.5.go:12-13 | moving past a non-duplicate keeps the loop's relation to the as-written result |
| AdjacentDups.LeftoverStep | e4.5.go:14 | each shift leaves a copy of the original last element behind the shortened slice |
| AdjacentDups.RemoveDups | e4.5.go:11-18 | `removeDups` as written: the returned slice is the as-written collapse of the input, and the backing array behind it holds copies of the old last element |
| AdjacentDups.CollapseLength | e4.5.go:11-18 | the result is no longer than the input |
| AdjacentDups.CollapseSubsequence | e4.5.go:11-18 | the result is a subsequence of the input |
| AdjacentDups.CollapseSameElements | e4.5.go:11-18 | the result contains the same set of values as the input |
| AdjacentDups.CollapseHead | e4.5.go:11-18 | the first element is always kept |
| AdjacentDups.RunsCons | e4.5.go:1 | collapsing runs: a leading element equal to its successor is absorbed |
| AdjacentDups.RunsOfCollapse | e4.5.go:11-18 | the as-written result has the same runs as its input |
| AdjacentDups.CollapseWithoutTriples | e4.5.go:11-18 | when no element occurs three times in a row, the as-written result has no adjacent duplicates |
| AdjacentDups.SampleInput | e4.5.go:9-21 | `"aabccddee"` gives `"abcde"` |
| AdjacentDups.RunOfThreeKeepsTwo | e4.5.go:12-16 | `["a","a","a"]` gives `["a","a"]`, which still has adjacent duplicates |
| AdjacentDups.RunsNoAdjacentDups | e4.5.go:1 | the intended result has no adjacent duplicates and keeps the first element |
| AdjacentDups.RunsRemoveStep | e4.5.go:13-14 | removing a duplicate and staying at `i` keeps the corrected loop's relation to the intended result |
| AdjacentDups.RunsKeepStep | e4.5.go:12-13 | moving past a non-duplicate keeps the corrected loop's relation |
| AdjacentDups.RemoveAdjacentDups | e4.5.go:1-18 | the corrected loop: the returned slice has one element per run of equal adjacent elements |
| HtmlTree.HrefsMembership | e5.1.go:30-34 | a string is collected from a node's attributes iff some attribute has key `href` and that value |
| HtmlTree.LinksOfAppend | e5.1.go:28-38 | the links of a concatenation of nodes are the links of each part in order |
| HtmlTree.SubtreeLinks | e5.1.go:28-38 | a node's subtree contributes its own links, then those of its children in order |
| HtmlTree.LinksOfCons | e5.1.go:29-35 | a node before others contributes its own links first |
| HtmlTree.ChainLinks | e5.1.go:41-48 | a sibling chain's links are the first child's subtree links, then those of the rest of the chain |
| HtmlTree.ElementNamesAppend | e5.2/mapHtmlNode.go:28-44 | the element names of a concatenation are those of each part in order |
| HtmlTree.TagCountStep | e5.2/mapHtmlNode.go:29-31 | adding a node adds one to its tag's element count iff it is an element node |
| HtmlTree.ElementNamesCount | e5.2/mapHtmlNode.go:28-44 | a tag occurs among the collected names as often as there are element nodes with that tag |
| HtmlTree.ElementNamesOnlyElements | e5.2/mapHtmlNode.go:29-31 | only element nodes contribute names |
| FindLinks.AppendOwn | e5.1.go:29-35 | the attribute loop appends the node's anchor links, in attribute order |
| FindLinks.Visit | e5.1.go:28-38 | `visit(links, n)`: appends the links of `n`'s subtree in document order |
| FindLinks.NextNode | e5.1.go:41-48 | `nextNode(links, c)`: appends the links of `c` and all its next siblings' subtrees, and returns a nil node |
| FindLinks.ChildStep | e5.1.go:63-65 | one child of the loop in `visitOG` moves its links from the pending part to the collected part |
| FindLinks.VisitOG | e5.1.go:55-67 | the loop-based original collects exactly the same links as the recursive `visit` |
| ElementCount.ElementCounter.constructor | e5.2/mapHtmlNode.go:16 | the element map starts empty |
| ElementCount.ElementCounter.Visit | e5.2/mapHtmlNode.go:28-34 | `visit(eleMap, n)`: increments the map once per element node of the subtree, by tag |
| ElementCount.ElementCounter.NextNode | e5.2/mapHtmlNode.go:37-44 | `nextNode`: the same over a sibling chain, returning a nil node |
| ElementCount.VisitCounts | e5.2/mapHtmlNode.go:28-44 | each tag's count grows by the number of its element nodes in the subtree, and an absent tag stays absent |
| ElementCount.VisitTotal | e5.2/mapHtmlNode.go:28-44 | the total grows by the number of element nodes |
| WordFreq.WordFreq | e4.9.go:14-22 | the words seen are exactly the keys, each with its number of occurrences (positive), and the counts total the number of words |
| CharCount.WithCounts | e4.8.go:34-42 | replacing one category's map leaves the other maps, the histogram and the invalid count unchanged |
| CharCount.Step | e4.8.go:23-44 | one read keeps the tally well shaped (a histogram of `UTFMax + 1` buckets) |
| CharCount.Tallied | e4.8.go:22-45 | the tally of a whole input is well shaped |
| CharCount.Categorize | e4.8.go:34-42 | the if-chain increments the map of the rune's first matching category and no other |
| CharCount.CharCount | e4.8.go:15-45 | the loop's final counts are the tally of the input |
| CharCount.InvalidCountedApart | e4.8.go:30-33 | an invalid encoding only increments `invalid` |
| CharCount.ValidRuneCounted | e4.8.go:34-44 | a valid rune leaves `invalid` alone, adds one to its length bucket and one to its category's count |
| CharCount.TalliedInOwnCategory | e4.8.go:34-42 | every counted rune is in the map of its own category |
| CharCount.StepKeepsOwnCategory | e4.8.go:30-44 | one read keeps every counted rune in its own category's map |
| CharCount.CategoriesDisjoint | e4.8.go:34-42 | no rune is counted in two categories |
| CharCount.SumSeqUpdate | e4.8.go:44 | incrementing a bucket changes the histogram's total by the change |
| CharCount.EveryReadCounted | e4.8.go:22-45 | every read is counted once: `invalid` plus the histogram's total is the number of reads |
| CharCount.NoErrorsNoZeroBucket | e4.8.go:44 | when every read has a length of at least one, bucket 0 stays zero |
| CharCount.RunesAccountedFor | e4.8.go:62-67 | when no read fails, the printed buckets 1 to 4 plus `invalid` account for every read |
| CharCount.LengthRows | e4.8.go:62-67 | the length table prints buckets 1 to `UTFMax`, each with its count, skipping bucket 0 |
| Counters.WordCountNext | e7.1/counters.go:28-32 | scanning one more byte adds one word iff it starts a word |
| Counters.NewlineCountNext | e7.1/counters.go:45-48 | scanning one more byte adds one newline iff it is `\n` |
| Counters.CountWords | e7.1/counters.go:26-34 | the `ScanWords` loop counts the maximal runs of non-space bytes |
| Counters.CountLines | e7.1/counters.go:43-50 | the `ScanLines` loop counts the newlines, plus one for a final unterminated line |
| Counters.WordsSeparatedBySpace | e7.1/counters.go:26-34 | words on either side of a space are counted separately |
| Counters.NewlineCountAppend | e7.1/counters.go:43-50 | newlines add up over a concatenation |
| Counters.LinesAfterNewline | e7.1/counters.go:43-50 | lines after a newline add up |
| Counters.ByteCounter.constructor | e7.1/counters.go:64 | a new counter is zero |
| Counters.ByteCounter.Reset | e7.1/counters.go:68 | `b = 0` resets the counter |
| Counters.ByteCounter.Write | e7.1/counters.go:17-20 | adds `len(p)` to the counter, so it stays the total length written since the last reset, and reports `len(p)` and no error |
| Counters.WordCounter.constructor | e7.1/counters.go:73 | a new counter is zero |
| Counters.WordCounter.Write | e7.1/counters.go:25-37 | replaces the counter with the word count of `p`, and reports the same count and no error |
| Counters.LineCounter.constructor | e7.1/counters.go:82 | a new counter is zero |
| Counters.LineCounter.Write | e7.1/counters.go:42-53 | replaces the counter with the line count of `p`, and reports the same count and no error |

## Left out

- `MapSort.Compare`, `MapSort.NaturalLessStrictTotal`: floating-point keys and values are
  modelled as mathematical reals. NaN, infinities and rounding are not captured, and the strict
  total order would fail for NaN in Go.
- The header of mapsort promises support for every integer kind, but the type switch has no
  case for plain `uint`, `bool` or other kinds. The model follows the code: those kinds panic.
- `sort.Sort` switches from insertion sort to pattern-defeating quicksort above 12 elements.
  The model sorts by insertion at every size. Under a strict weak order, the guarantees proved
  (permutation, sortedness, panics only from compared elements) are the ones both algorithms
  give. The exact sequence of swaps, the final order of equal elements and which comparison
  panics first are not captured.
- The receiver of `KeySort.MapSort` and `ValSort.MapSort` is not used by the source; the model
  takes only the map.
- `Len` of `KeySort`, `ValSort` and `entries` is the length of the sequence; it has no member
  of its own.
- colsort's `less` closure recomputes `sortFuncKeys()` on every comparison. `SortTracks`
  computes it once, since the ranks do not change during a sort. The printing of the table and
  `length()` parsing of durations are not part of this model; lengths are given as integers.
- `ClockWall.ClockTable.ShowTimes`: equal readings are not ordered by `ValSort`, so they keep
  the order of the `range clocks` loop, which Go varies from call to call. Two clocks with the
  same reading can swap places between refreshes of an unchanged table;
  `ClockWall.EqualReadingsEitherOrder` shows both orders are allowed. Readings shorter than
  9 bytes (a short `conn.Read`) are accepted, and then they are neither ordered by time nor
  printed one per line.
- clockwall: the goroutines, the mutex, the network connections, the one-second sleep and
  `log.Fatal` are left out. The clock updates are a sequence of `Update` calls
  (`ClockWall.ClockTable.UpdateAll`), in whatever order the goroutines took the lock.
- `ClockWall.ClockTable.Update`: stores a copy of the reading. In the source, every update of
  one connection aliases the same 9-byte buffer, and reads of it race with later writes; that
  aliasing and the data race are not modelled.
- `ClockWall.GetVar` and `ClockWall.StrToRune` work on characters, not on UTF-8 bytes; a
  multi-byte first character is one character here.
- `ClockWall.BytesToString` maps each byte to the character with the same code, which agrees
  with Go only for ASCII readings such as `HH:MM:SS\n`.
- `Counters.CountWords`, `Counters.WordCounter.Write`: only the ASCII white space of `bufio.ScanWords` (tab, line feed,
  vertical tab, form feed, carriage return, space) is recognised. The Unicode spaces U+0085,
  U+00A0 and the others it also skips are not modelled.
- `Counters.CountLines`, `Counters.LineCounter.Write`: a carriage return before a newline is dropped from the token by
  `ScanLines` but does not change the count, so it is not modelled.
- `Counters.CountWords`, `Counters.CountLines`, `Counters.WordCounter.Write`,
  `Counters.LineCounter.Write`: the scanners' 64 KiB token limit, after which `Scan` stops with
  an error and the count falls short, is not modelled.
- Integer overflow of the counters and of the counts in the maps is not modelled (Go's `int`
  is 64 bits).
- `fmt.Fprintf(&b, string(input))` in the counters' `main` interprets the input as a format
  string; the model only gives `Write` the bytes it would receive.
- The Unicode category tables (`IsLetter`, `IsNumber`, `IsPunct`, `IsSymbol`) and UTF-8
  decoding (`ReadRune`) are parameters: the model receives the decoded runes with their
  lengths. A read that fails with an error other than end of input is an entry of rune 0 and
  size 0, which lands in bucket 0 as in the source. The model takes a finite input, so the
  source's endless loop on a persistent read error is not modelled.
- Reading standard input, `html.Parse`, and all printing outside `showTimes` and the length
  table are left out. The HTML tree is given as a value with no parent or previous-sibling
  links.
- `e4.2.go`, `e8.1/clock2/clock2.go`, `e7.11/item_server.go` and
  `e8.1/mapsortDemo/mapsortDemo.go` are not part of this model.

## Findings

| source | as written | input that shows it | evidently intended | confidence | as-written member | corrected member |
|---|---|---|---|---|---|---|
| e4.5.go:12-16 | `append(str[:i], str[i+1:]...)` drops `str[i]` and slides the rest down one place, then the loop still advances `i`, so the element now at `i` is never compared with the one that slid into `i+1` | `["a","a","a"]` returns `["a","a"]` | every adjacent duplicate removed, giving `["a"]` | not executed | AdjacentDups.RunOfThreeKeepsTwo | AdjacentDups.RemoveAdjacentDups |

`AdjacentDups.RemoveDups` models the loop as written. `AdjacentDups.CollapseWithoutTriples`
shows it is correct on inputs with no run of three, which includes the sample `"aabccddee"`.
`AdjacentDups.RemoveAdjacentDups` stays at `i` after a removal and is proved to return one
element per run, which `AdjacentDups.RunsNoAdjacentDups` shows has no adjacent duplicates.
