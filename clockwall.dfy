/** clockwall: reads `HH:MM:SS\n` lines from several clock servers into a table keyed by
    location name, and every second prints the table sorted by reading. The network, the
    goroutines and the mutex are not part of this model; what is modelled is argument
    parsing, the table update, and the snapshot/sort/format step. */
module ClockWall {
  import opened Base
  import opened Lex
  import opened Sorting
  import opened MapSort

  /** `strToRune(s)`: the first rune of `s` (indexing an empty string panics). */
  function StrToRune(s: string): (r: char)
    requires |s| > 0
    ensures r == s[0]
  {
    s[0]
  }

  /** `getVar(dec)`: split `name=port` at the first `=`; without `=`, two empty strings. */
  method GetVar(dec: string) returns (tz: string, port: string)
    ensures '=' in dec ==> tz + "=" + port == dec && '=' !in tz
    ensures '=' !in dec ==> tz == "" && port == ""
  {
    var i := 0;
    while i < |dec|
      invariant 0 <= i <= |dec|
      invariant '=' !in dec[..i]
    {
      if dec[i] == StrToRune("=") {
        tz, port := dec[..i], dec[i + 1..];
        assert dec == dec[..i] + [dec[i]] + dec[i + 1..];
        return;
      }
      i := i + 1;
    }
    assert dec[..i] == dec;
    tz, port := "", "";
  }

  /** The reading buffer of `getTime` holds exactly one `HH:MM:SS\n` line. */
  const ReadingSize := 9

  /** `string(v)` for a byte slice: each byte becomes the character with that code. */
  function BytesToString(b: seq<byte>): (s: string)
    ensures |s| == |b| && forall k | 0 <= k < |b| :: s[k] as int == b[k]
  {
    seq(|b|, k requires 0 <= k < |b| => b[k] as char)
  }

  predicate IsDigit(c: char)
  {
    '0' <= c <= '9'
  }

  function DigitValue(c: char): int
  {
    c as int - '0' as int
  }

  function TwoDigits(s: string, k: nat): int
    requires k + 1 < |s|
  {
    10 * DigitValue(s[k]) + DigitValue(s[k + 1])
  }

  /** A line as the clock server writes it with `time.Format("15:04:05\n")`. */
  predicate WellFormedTime(s: string)
  {
    && |s| == ReadingSize
    && IsDigit(s[0]) && IsDigit(s[1]) && s[2] == ':'
    && IsDigit(s[3]) && IsDigit(s[4]) && s[5] == ':'
    && IsDigit(s[6]) && IsDigit(s[7]) && s[8] == '\n'
    && TwoDigits(s, 0) < 24 && TwoDigits(s, 3) < 60 && TwoDigits(s, 6) < 60
  }

  /** The time of day a well-formed line names, in seconds after midnight. */
  function Seconds(s: string): int
    requires WellFormedTime(s)
  {
    3600 * TwoDigits(s, 0) + 60 * TwoDigits(s, 3) + TwoDigits(s, 6)
  }

  /** On fixed-width `HH:MM:SS\n` lines, string order is time-of-day order: sorting readings
      as strings sorts them from earliest to latest. */
  lemma ChronologicalOrder(a: string, b: string)
    requires WellFormedTime(a) && WellFormedTime(b)
    ensures LexLess(a, b) <==> Seconds(a) < Seconds(b)
  {
    if a == b {
      LexLessIrreflexive(a);
    } else {
      var k := FirstDifference(a, b);
      LexLessAt(a, b, k);
      assert forall j | 0 <= j < k :: a[j] == a[..k][j] == b[..k][j] == b[j];
    }
  }

  /** The table after the readings `us` (name, bytes) have been stored in order. */
  function Updates(clocks: map<string, seq<byte>>, us: seq<(string, seq<byte>)>): map<string, seq<byte>>
    decreases |us|
  {
    if us == [] then clocks
    else
      var (tz, reading) := us[|us| - 1];
      Updates(clocks, us[..|us| - 1])[tz := reading]
  }

  function Names(us: seq<(string, seq<byte>)>): (ns: seq<string>)
    ensures |ns| == |us| && forall k | 0 <= k < |us| :: ns[k] == us[k].0
  {
    seq(|us|, k requires 0 <= k < |us| => us[k].0)
  }

  /** The table never loses a name, and holds for each name the last reading stored for it
      (or its earlier value when none was stored). */
  lemma {:induction false} LatestReadingWins(clocks: map<string, seq<byte>>, us: seq<(string, seq<byte>)>, t: string)
    ensures t in Updates(clocks, us) <==> t in clocks || t in Names(us)
    ensures t in Names(us) ==> Updates(clocks, us)[t] == us[LastIndexOf(Names(us), t)].1
    ensures t !in Names(us) && t in clocks ==> Updates(clocks, us)[t] == clocks[t]
    decreases |us|
  {
    if us != [] {
      var init := us[..|us| - 1];
      assert Names(us) == Names(init) + [us[|us| - 1].0];
      LatestReadingWins(clocks, init, t);
    }
  }

  /** The entries `showTimes` collects: one per table name, the reading as a string. */
  ghost function SnapshotSet(clocks: map<string, seq<byte>>): set<Entry>
  {
    set k | k in clocks :: Entry(Str(k), Str(BytesToString(clocks[k])))
  }

  /** One output line; the reading carries its own newline. */
  function Line(e: Entry): string
    requires e.key.Str? && e.val.Str?
  {
    e.key.s + " local time: " + e.val.s
  }

  /** The printed lines of `es`, one after the other. */
  function Render(es: seq<Entry>): string
    requires forall k | 0 <= k < |es| :: es[k].key.Str? && es[k].val.Str?
  {
    if es == [] then "" else Render(es[..|es| - 1]) + Line(es[|es| - 1])
  }

  const Separator := "---------------\n"

  lemma SnapshotEntry(clocks: map<string, seq<byte>>, es: seq<Entry>, e: Entry)
    requires multiset(es) == multiset(SnapshotSet(clocks)) && e in es
    ensures e.key.Str? && e.val.Str? && e.key.s in clocks && e.val.s == BytesToString(clocks[e.key.s])
  {
    assert e in multiset(es);
  }

  /** The clock table: the latest reading received from each named server. */
  class ClockTable {
    var clocks: map<string, seq<byte>>

    constructor ()
      ensures clocks == map[]
    {
      clocks := map[];
    }

    /** `clocks[tz] = buf[:n]` in `getTime`: replace `tz`'s reading, keep every other one. */
    method Update(tz: string, reading: seq<byte>)
      requires |reading| <= ReadingSize
      modifies this
      ensures clocks == old(clocks)[tz := reading]
    {
      clocks := clocks[tz := reading];
    }

    /** The updates of the `getTime` loops, in the order they took the lock: the table ends up
        as `Updates` describes, so `LatestReadingWins` applies to it. */
    method UpdateAll(us: seq<(string, seq<byte>)>)
      requires forall k | 0 <= k < |us| :: |us[k].1| <= ReadingSize
      modifies this
      ensures clocks == Updates(old(clocks), us)
    {
      var i := 0;
      while i < |us|
        invariant 0 <= i <= |us|
        invariant clocks == Updates(old(clocks), us[..i])
      {
        assert us[..i + 1][..i] == us[..i];
        Update(us[i].0, us[i].1);
        i := i + 1;
      }
      assert us[..i] == us;
    }

    /** `showTimes()`: snapshot the table, sort it with `ValSort`, and print one line per entry
        followed by the separator. Returns the sorted snapshot and the printed text. */
    method ShowTimes() returns (es: seq<Entry>, out: string)
      ensures multiset(es) == multiset(SnapshotSet(clocks))
      ensures forall k | 0 <= k < |es| :: es[k].key.Str? && es[k].val.Str?
      ensures forall p, q | 0 <= p < q < |es| :: !LexLess(es[q].val.s, es[p].val.s)
      ensures (forall t | t in clocks :: WellFormedTime(BytesToString(clocks[t]))) ==>
                forall p, q | 0 <= p < q < |es| ::
                  WellFormedTime(es[p].val.s) && WellFormedTime(es[q].val.s) &&
                  Seconds(es[p].val.s) <= Seconds(es[q].val.s)
      ensures out == Render(es) + Separator
    {
      var collected := Snapshot(clocks);
      es := SortReadings(clocks, collected);
      out := Format(es);
    }
  }

  /** The locked copy loop of `showTimes`: one entry per table name, in map order. */
  method Snapshot(clocks: map<string, seq<byte>>) returns (collected: seq<Entry>)
    ensures multiset(collected) == multiset(SnapshotSet(clocks))
  {
    collected := [];
    var rest := clocks.Keys;
    while rest != {}
      invariant rest <= clocks.Keys
      invariant multiset(collected) ==
                  multiset(set j | j in clocks && j !in rest :: Entry(Str(j), Str(BytesToString(clocks[j]))))
      decreases rest
    {
      var k :| k in rest;
      ghost var done := set j | j in clocks && j !in rest :: Entry(Str(j), Str(BytesToString(clocks[j])));
      collected := collected + [Entry(Str(k), Str(BytesToString(clocks[k])))];
      rest := rest - {k};
      assert (set j | j in clocks && j !in rest :: Entry(Str(j), Str(BytesToString(clocks[j]))))
             == done + {Entry(Str(k), Str(BytesToString(clocks[k])))};
      assert Entry(Str(k), Str(BytesToString(clocks[k]))) !in done;
    }
    assert (set j | j in clocks && j !in rest :: Entry(Str(j), Str(BytesToString(clocks[j]))))
           == SnapshotSet(clocks);
  }

  /** `sort.Sort(es)` on the `mapsort.ValSort` snapshot: all values are strings, so the sort never
      panics and orders the readings as strings, hence by time of day when well formed. */
  method SortReadings(clocks: map<string, seq<byte>>, collected: seq<Entry>) returns (es: seq<Entry>)
    requires multiset(collected) == multiset(SnapshotSet(clocks))
    ensures multiset(es) == multiset(SnapshotSet(clocks))
    ensures forall k | 0 <= k < |es| :: es[k].key.Str? && es[k].val.Str?
    ensures forall p, q | 0 <= p < q < |es| :: !LexLess(es[q].val.s, es[p].val.s)
    ensures (forall t | t in clocks :: WellFormedTime(BytesToString(clocks[t]))) ==>
              forall p, q | 0 <= p < q < |es| ::
                WellFormedTime(es[p].val.s) && WellFormedTime(es[q].val.s) &&
                Seconds(es[p].val.s) <= Seconds(es[q].val.s)
  {
    forall e | e in collected
      ensures e.val.Str?
    {
      SnapshotEntry(clocks, collected, e);
    }
    ValCompareOrders(collected);
    var ok;
    ok, es := SortSlice(collected, ValCompare);
    forall k | 0 <= k < |es|
      ensures es[k].key.Str? && es[k].val.Str?
      ensures (forall t | t in clocks :: WellFormedTime(BytesToString(clocks[t]))) ==> WellFormedTime(es[k].val.s)
    {
      assert es[k] in multiset(es);
      SnapshotEntry(clocks, collected, es[k]);
    }
    forall p, q | 0 <= p < q < |es|
      ensures !LexLess(es[q].val.s, es[p].val.s)
      ensures WellFormedTime(es[p].val.s) && WellFormedTime(es[q].val.s) ==>
                Seconds(es[p].val.s) <= Seconds(es[q].val.s)
    {
      assert !Less(ValCompare, es[q], es[p]);
      if WellFormedTime(es[p].val.s) && WellFormedTime(es[q].val.s) {
        ChronologicalOrder(es[q].val.s, es[p].val.s);
      }
    }
  }

  /** The print loop of `showTimes`, collecting what it writes. */
  method Format(es: seq<Entry>) returns (out: string)
    requires forall k | 0 <= k < |es| :: es[k].key.Str? && es[k].val.Str?
    ensures out == Render(es) + Separator
  {
    out := "";
    var i := 0;
    while i < |es|
      invariant 0 <= i <= |es|
      invariant out == Render(es[..i])
    {
      assert es[..i + 1][..i] == es[..i];
      out := out + Line(es[i]);
      i := i + 1;
    }
    assert es[..i] == es;
    out := out + Separator;
  }

  /** Two clocks showing the same reading: `12:00:00\n` from both "A" and "B". */
  const NoonBytes: seq<byte> := [49, 50, 58, 48, 48, 58, 48, 48, 10]
  const TwoAtNoon: map<string, seq<byte>> := map["A" := NoonBytes, "B" := NoonBytes]

  lemma NoonReading()
    ensures BytesToString(NoonBytes) == "12:00:00\n"
    ensures WellFormedTime(BytesToString(NoonBytes))
  {
    assert BytesToString(NoonBytes) == "12:00:00\n";
  }

  lemma TwoAtNoonSnapshot(a: Entry, b: Entry)
    requires a == Entry(Str("A"), Str(BytesToString(NoonBytes)))
    requires b == Entry(Str("B"), Str(BytesToString(NoonBytes)))
    ensures multiset([a, b]) == multiset(SnapshotSet(TwoAtNoon)) == multiset([b, a])
  {
    assert TwoAtNoon.Keys == {"A", "B"};
    assert a in SnapshotSet(TwoAtNoon) && b in SnapshotSet(TwoAtNoon);
    assert SnapshotSet(TwoAtNoon) == {a, b};
  }

  lemma RenderTwo(a: Entry, b: Entry)
    requires a.key.Str? && a.val.Str? && b.key.Str? && b.val.Str?
    ensures Render([a, b]) == Line(a) + Line(b)
  {
    assert [a, b][..1] == [a] && [a][..0] == [];
    assert Render([a]) == Render([]) + Line(a) == Line(a);
  }

  /** Equal readings are not ordered by `ValSort`, so they keep the order of the map range
      loop, which Go varies from call to call: both orders of two clocks at the same time meet
      every ordering promise of `ShowTimes`, and they print differently. */
  lemma EqualReadingsEitherOrder()
    ensures var a := Entry(Str("A"), Str(BytesToString(NoonBytes)));
            var b := Entry(Str("B"), Str(BytesToString(NoonBytes)));
            && multiset([a, b]) == multiset(SnapshotSet(TwoAtNoon))
            && multiset([b, a]) == multiset(SnapshotSet(TwoAtNoon))
            && !LexLess(a.val.s, b.val.s) && !LexLess(b.val.s, a.val.s)
            && WellFormedTime(a.val.s) && Seconds(a.val.s) == Seconds(b.val.s)
            && Render([a, b]) != Render([b, a])
  {
    var a := Entry(Str("A"), Str(BytesToString(NoonBytes)));
    var b := Entry(Str("B"), Str(BytesToString(NoonBytes)));
    TwoAtNoonSnapshot(a, b);
    NoonReading();
    LexLessIrreflexive(a.val.s);
    RenderTwo(a, b);
    RenderTwo(b, a);
    assert Render([a, b])[0] == 'A' && Render([b, a])[0] == 'B';
  }
}
