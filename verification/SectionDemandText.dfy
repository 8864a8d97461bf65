/**
 `describe_section_demand` of src/app.cpp: the sections that are on, as ranges counted from one, such
 as "4 on: 3-6".
 */
module SectionDemandText {

  /** A range of sections, counted from zero, both ends included. */
  datatype Range = Range(first: nat, last: nat)

  const ALL_OFF := "all off"
  const ON_TEXT := " on: "

  // ---------------------------------------------------------------------------------------------
  // Decimal numbers
  // ---------------------------------------------------------------------------------------------

  function Digit(d: nat): char
    requires d < 10
  {
    "0123456789"[d]
  }

  predicate IsDigit(c: char) {
    '0' <= c <= '9'
  }

  function DigitValue(c: char): nat
    requires IsDigit(c)
  {
    (c - '0') as nat
  }

  function Decimal(n: nat): string {
    if n < 10 then [Digit(n)] else Decimal(n / 10) + [Digit(n % 10)]
  }

  /** The number that a text of digits stands for; other characters are ignored. */
  function Number(s: string): nat {
    if s == "" then 0
    else if IsDigit(s[|s| - 1]) then 10 * Number(s[..|s| - 1]) + DigitValue(s[|s| - 1])
    else Number(s[..|s| - 1])
  }

  lemma DigitRoundTrip(d: nat)
    requires d < 10
    ensures IsDigit(Digit(d)) && DigitValue(Digit(d)) == d
  {
  }

  lemma {:induction false} DecimalRoundTrip(n: nat)
    ensures Decimal(n) != "" && Number(Decimal(n)) == n
    ensures forall i :: 0 <= i < |Decimal(n)| ==> IsDigit(Decimal(n)[i])
    ensures n > 0 ==> Decimal(n)[0] != '0'
  {
    if n >= 10 {
      DecimalRoundTrip(n / 10);
      DigitRoundTrip(n % 10);
      var s := Decimal(n);
      assert s[..|s| - 1] == Decimal(n / 10) && s[|s| - 1] == Digit(n % 10);
    } else {
      DigitRoundTrip(n);
      assert [Digit(n)][..0] == "";
    }
  }

  // ---------------------------------------------------------------------------------------------
  // The ranges
  // ---------------------------------------------------------------------------------------------

  /** How many sections the text covers. */
  function Counted(demand: seq<bool>, numberOfSections: nat): (count: nat)
    ensures count <= |demand|
  {
    if numberOfSections == 0 || numberOfSections > |demand| then |demand| else numberOfSections
  }

  predicate StartsRange(demand: seq<bool>, i: nat)
    requires i < |demand|
  {
    demand[i] && (i == 0 || !demand[i - 1])
  }

  /** The last section of the uninterrupted stretch that starts at `i`. */
  function RangeEnd(demand: seq<bool>, count: nat, i: nat): (last: nat)
    requires i < count <= |demand|
    ensures i <= last < count
    decreases count - i
  {
    if i + 1 < count && demand[i + 1] then RangeEnd(demand, count, i + 1) else i
  }

  /** The ranges that start before `i`. */
  function Ranges(demand: seq<bool>, count: nat, i: nat): seq<Range>
    requires i <= count <= |demand|
  {
    if i == 0 then []
    else
      Ranges(demand, count, i - 1) +
      if StartsRange(demand, i - 1) then [Range(i - 1, RangeEnd(demand, count, i - 1))] else []
  }

  function OnCount(demand: seq<bool>, i: nat): nat
    requires i <= |demand|
  {
    if i == 0 then 0 else OnCount(demand, i - 1) + if demand[i - 1] then 1 else 0
  }

  function PrintRange(r: Range): string {
    Decimal(r.first + 1) + if r.last > r.first then "-" + Decimal(r.last + 1) else ""
  }

  function PrintRanges(ranges: seq<Range>): string {
    if ranges == [] then ""
    else PrintRange(ranges[0]) + if |ranges| > 1 then "," + PrintRanges(ranges[1..]) else ""
  }

  lemma {:induction false} PrintRangesAppend(ranges: seq<Range>, r: Range)
    ensures PrintRanges(ranges + [r]) == PrintRanges(ranges) + (if ranges == [] then "" else ",") + PrintRange(r)
  {
    hide PrintRange;
    if ranges == [] {
      assert [] + [r] == [r];
    } else {
      var first, rest, last := PrintRange(ranges[0]), PrintRanges(ranges[1..]), PrintRange(r);
      assert (ranges + [r])[0] == ranges[0] && (ranges + [r])[1..] == ranges[1..] + [r];
      PrintRangesAppend(ranges[1..], r);
      if |ranges| == 1 {
        assert ranges[1..] == [];
        assert first + ("," + ("" + "" + last)) == (first + "") + "," + last;
      } else {
        assert first + ("," + (rest + "," + last)) == (first + ("," + rest)) + "," + last;
      }
    }
  }

  lemma {:induction false} SomeOnIffSomeRange(demand: seq<bool>, count: nat, i: nat)
    requires i <= count <= |demand|
    ensures OnCount(demand, i) == 0 <==> Ranges(demand, count, i) == []
  {
    if i != 0 {
      SomeOnIffSomeRange(demand, count, i - 1);
      if i > 1 && demand[i - 1] && demand[i - 2] {
        assert OnCount(demand, i - 1) != 0;
      }
    }
  }

  lemma NoRanges()
    ensures PrintRanges([]) == ""
  {
  }

  method FindRangeEnd(demand: seq<bool>, count: nat, i: nat) returns (last: nat)
    requires i < count <= |demand|
    ensures last == RangeEnd(demand, count, i)
  {
    last := i;
    while last + 1 < count && demand[last + 1]
      invariant i <= last < count
      invariant RangeEnd(demand, count, i) == RangeEnd(demand, count, last)
    {
      last := last + 1;
    }
  }

  method DescribeSectionDemand(demand: seq<bool>, numberOfSections: nat) returns (text: string)
    ensures var count := Counted(demand, numberOfSections);
            text == if OnCount(demand, count) == 0 then ALL_OFF
                    else Decimal(OnCount(demand, count)) + ON_TEXT + PrintRanges(Ranges(demand, count, count))
  {
    hide PrintRanges, Decimal;
    NoRanges();
    var ranges := "";
    var onCount := 0;
    var count := if numberOfSections == 0 || |demand| < numberOfSections then |demand| else numberOfSections;
    for i := 0 to count
      invariant onCount == OnCount(demand, i)
      invariant ranges == PrintRanges(Ranges(demand, count, i))
    {
      if !demand[i] || (i > 0 && demand[i - 1]) {
        assert Ranges(demand, count, i + 1) == Ranges(demand, count, i);
        onCount := onCount + if demand[i] then 1 else 0;
        continue;
      }
      var last := FindRangeEnd(demand, count, i);
      SomeOnIffSomeRange(demand, count, i);
      PrintRangesAppend(Ranges(demand, count, i), Range(i, last));
      assert Ranges(demand, count, i + 1) == Ranges(demand, count, i) + [Range(i, last)];
      ghost var before := ranges + (if onCount == 0 then "" else ",");
      ranges := ranges + (if onCount == 0 then "" else ",") + Decimal(i + 1);
      if last > i {
        ranges := ranges + "-" + Decimal(last + 1);
      }
      assert ranges == before + PrintRange(Range(i, last));
      onCount := onCount + 1;
    }
    if onCount == 0 {
      return ALL_OFF;
    }
    return Decimal(onCount) + ON_TEXT + ranges;
  }

  // ---------------------------------------------------------------------------------------------
  // What the ranges are
  // ---------------------------------------------------------------------------------------------

  ghost predicate AllOn(demand: seq<bool>, first: int, last: int) {
    forall i :: first <= i <= last ==> 0 <= i < |demand| && demand[i]
  }

  lemma {:induction false} RangeEndIsMaximal(demand: seq<bool>, count: nat, i: nat)
    requires i < count <= |demand| && demand[i]
    ensures var last := RangeEnd(demand, count, i);
            AllOn(demand, i, last) && (last + 1 == count || !demand[last + 1])
    decreases count - i
  {
    if i + 1 < count && demand[i + 1] {
      RangeEndIsMaximal(demand, count, i + 1);
    }
  }

  /** A stretch of sections that are on and cannot be made longer within the counted ones. */
  ghost predicate IsMaximal(demand: seq<bool>, count: nat, r: Range)
    requires count <= |demand|
  {
    && r.first <= r.last < count
    && AllOn(demand, r.first, r.last)
    && (r.first == 0 || !demand[r.first - 1])
    && (r.last + 1 == count || !demand[r.last + 1])
  }

  lemma {:induction false} RangesAreMaximal(demand: seq<bool>, count: nat, i: nat)
    requires i <= count <= |demand|
    ensures var rs := Ranges(demand, count, i);
            Separate(rs) && forall k :: 0 <= k < |rs| ==> MaximalBelow(demand, count, rs[k], i)
  {
    if i != 0 {
      RangesAreMaximal(demand, count, i - 1);
      var before := Ranges(demand, count, i - 1);
      assert forall k :: 0 <= k < |before| ==> MaximalBelow(demand, count, before[k], i - 1);
      if StartsRange(demand, i - 1) {
        RangeEndIsMaximal(demand, count, i - 1);
        forall j | 0 <= j < |before| ensures before[j].last + 1 < i - 1 {
          EndsBefore(demand, count, before[j], i - 1);
        }
      }
    }
  }

  ghost predicate MaximalBelow(demand: seq<bool>, count: nat, r: Range, i: nat)
    requires count <= |demand|
  {
    r.first < i && IsMaximal(demand, count, r)
  }

  /** The ranges ascend, with at least one section between neighbours. */
  ghost predicate Separate(ranges: seq<Range>) {
    forall j, k :: 0 <= j < k < |ranges| ==> ranges[j].last + 1 < ranges[k].first
  }

  /** A maximal range that starts before the start of another ends before the section in front of it. */
  lemma EndsBefore(demand: seq<bool>, count: nat, r: Range, i: nat)
    requires i < count <= |demand| && MaximalBelow(demand, count, r, i) && StartsRange(demand, i)
    ensures r.last + 1 < i
  {
  }

  ghost predicate InSome(ranges: seq<Range>, i: int) {
    exists k :: 0 <= k < |ranges| && ranges[k].first <= i <= ranges[k].last
  }

  lemma {:induction false} OnSectionsAreInRanges(demand: seq<bool>, count: nat, i: nat, n: nat)
    requires i < n <= count <= |demand| && demand[i]
    ensures InSome(Ranges(demand, count, n), i)
    decreases i, n
  {
    if StartsRange(demand, i) {
      RangeIsListed(demand, count, i, n);
    } else {
      OnSectionsAreInRanges(demand, count, i - 1, i);
      RangesAreMaximal(demand, count, i);
      var before := Ranges(demand, count, i);
      var k :| 0 <= k < |before| && before[k].first <= i - 1 <= before[k].last;
      assert MaximalBelow(demand, count, before[k], i);
      RangesGrow(demand, count, i, n);
      assert Ranges(demand, count, n)[k] == before[k];
      assert before[k].first <= i <= before[k].last;
    }
  }

  lemma {:induction false} RangesGrow(demand: seq<bool>, count: nat, i: nat, n: nat)
    requires i <= n <= count <= |demand|
    ensures Ranges(demand, count, i) <= Ranges(demand, count, n)
  {
    if i < n {
      RangesGrow(demand, count, i, n - 1);
    }
  }

  lemma RangeIsListed(demand: seq<bool>, count: nat, i: nat, n: nat)
    requires i < n <= count <= |demand| && StartsRange(demand, i)
    ensures InSome(Ranges(demand, count, n), i)
  {
    RangesGrow(demand, count, i + 1, n);
    var k := |Ranges(demand, count, i)|;
    assert Ranges(demand, count, i + 1)[k] == Range(i, RangeEnd(demand, count, i));
    assert Ranges(demand, count, n)[k].first <= i <= Ranges(demand, count, n)[k].last;
  }

  /** The set of counted sections that are on. */
  function OnSet(demand: seq<bool>, count: nat): set<int>
    requires count <= |demand|
  {
    set i | 0 <= i < count && demand[i]
  }

  lemma {:induction false} CountIsSetSize(demand: seq<bool>, i: nat)
    requires i <= |demand|
    ensures |OnSet(demand, i)| == OnCount(demand, i)
  {
    if i != 0 {
      CountIsSetSize(demand, i - 1);
      assert OnSet(demand, i) == OnSet(demand, i - 1) + if demand[i - 1] then {i - 1} else {};
    }
  }

  // ---------------------------------------------------------------------------------------------
  // Reading the text back
  // ---------------------------------------------------------------------------------------------

  /** The position of the first `c`, or the length. */
  function IndexOf(s: string, c: char): (k: nat)
    ensures k <= |s|
  {
    if s == "" || s[0] == c then 0 else 1 + IndexOf(s[1..], c)
  }

  lemma {:induction false} IndexAfterPrefix(head: string, tail: string, c: char)
    requires c !in head && (tail == "" || tail[0] == c)
    ensures IndexOf(head + tail, c) == |head|
  {
    if head == "" {
      assert head + tail == tail;
    } else {
      assert (head + tail)[1..] == head[1..] + tail;
      IndexAfterPrefix(head[1..], tail, c);
    }
  }

  /** The zero-based section that a one-based number names. */
  function Section(s: string): nat {
    if Number(s) == 0 then 0 else Number(s) - 1
  }

  function ParseRange(s: string): Range {
    var k := IndexOf(s, '-');
    if k == |s| then Range(Section(s), Section(s)) else Range(Section(s[..k]), Section(s[k + 1..]))
  }

  function ParseRanges(s: string): seq<Range>
    decreases |s|
  {
    if s == "" then []
    else
      var k := IndexOf(s, ',');
      [ParseRange(s[..k])] + if k < |s| then ParseRanges(s[k + 1..]) else []
  }

  /** The count and the ranges that a text states. */
  function Parse(text: string): (nat, seq<Range>) {
    if text == ALL_OFF then (0, [])
    else
      var k := IndexOf(text, ' ');
      (Number(text[..k]), if k + |ON_TEXT| <= |text| then ParseRanges(text[k + |ON_TEXT|..]) else [])
  }

  lemma DecimalHasOnlyDigits(n: nat, c: char)
    requires !IsDigit(c)
    ensures c !in Decimal(n)
  {
    DecimalRoundTrip(n);
  }

  lemma RangeRoundTrip(r: Range)
    requires r.first <= r.last
    ensures PrintRange(r) != "" && ',' !in PrintRange(r) && ParseRange(PrintRange(r)) == r
  {
    hide Decimal;
    var first, last := Decimal(r.first + 1), Decimal(r.last + 1);
    DecimalRoundTrip(r.first + 1);
    DecimalRoundTrip(r.last + 1);
    DecimalHasOnlyDigits(r.first + 1, '-');
    DecimalHasOnlyDigits(r.first + 1, ',');
    DecimalHasOnlyDigits(r.last + 1, ',');
    if r.last > r.first {
      var s := first + ("-" + last);
      assert PrintRange(r) == s;
      IndexAfterPrefix(first, "-" + last, '-');
      assert s[..|first|] == first && s[|first| + 1..] == last;
    } else {
      assert PrintRange(r) == first + "" == first;
      IndexAfterPrefix(first, "", '-');
    }
  }

  lemma {:induction false} RangesRoundTrip(ranges: seq<Range>)
    requires forall k :: 0 <= k < |ranges| ==> ranges[k].first <= ranges[k].last
    ensures ParseRanges(PrintRanges(ranges)) == ranges
  {
    hide PrintRange, ParseRange;
    if ranges != [] {
      RangeRoundTrip(ranges[0]);
      RangesRoundTrip(ranges[1..]);
      var head := PrintRange(ranges[0]);
      if |ranges| > 1 {
        var tail := "," + PrintRanges(ranges[1..]);
        var s := head + tail;
        assert PrintRanges(ranges) == s;
        IndexAfterPrefix(head, tail, ',');
        assert s[..|head|] == head && s[|head| + 1..] == PrintRanges(ranges[1..]);
      } else {
        assert PrintRanges(ranges) == head + "" == head;
        IndexAfterPrefix(head, "", ',');
        assert head[..|head|] == head;
      }
    }
  }

  /** What the printed text reads back as. */
  lemma TextRoundTrip(demand: seq<bool>, count: nat, text: string)
    requires count <= |demand|
    requires text == if OnCount(demand, count) == 0 then ALL_OFF
                     else Decimal(OnCount(demand, count)) + ON_TEXT + PrintRanges(Ranges(demand, count, count))
    ensures Parse(text) == (OnCount(demand, count), Ranges(demand, count, count))
  {
    hide Decimal, OnCount, Ranges, PrintRanges, ParseRanges;
    SomeOnIffSomeRange(demand, count, count);
    var n, ranges := OnCount(demand, count), Ranges(demand, count, count);
    if n != 0 {
      DecimalRoundTrip(n);
      DecimalHasOnlyDigits(n, ' ');
      DecimalHasOnlyDigits(n, 'a');
      var head, tail := Decimal(n), ON_TEXT + PrintRanges(ranges);
      assert text == head + tail;
      assert text[0] == head[0];
      IndexAfterPrefix(head, tail, ' ');
      assert text[..|head|] == head && text[|head| + |ON_TEXT|..] == PrintRanges(ranges);
      RangesAreMaximal(demand, count, count);
      assert forall k :: 0 <= k < |ranges| ==> MaximalBelow(demand, count, ranges[k], count);
      RangesRoundTrip(ranges);
    }
  }

  /** A number, " on: ", and something else. */
  ghost predicate ReadsOn(text: string) {
    exists number: string, rest: string ::
      text == number + (" on: " + rest) && number != "" && forall i :: 0 <= i < |number| ==> IsDigit(number[i])
  }

  lemma TextReadsOn(n: nat, ranges: string)
    ensures ReadsOn(Decimal(n) + ON_TEXT + ranges)
  {
    hide Decimal;
    DecimalRoundTrip(n);
    assert Decimal(n) + ON_TEXT + ranges == Decimal(n) + (" on: " + ranges);
  }

  /**
   The whole promise: from the printed text one reads back the number of counted sections that are on and
   a list of ranges that are maximal, ascending and apart from each other, and that cover exactly those
   sections.
   */
  method PrintedTextIsExact(demand: seq<bool>, numberOfSections: nat) returns (text: string)
    ensures var count := if 0 < numberOfSections < |demand| then numberOfSections else |demand|;
            var (n, ranges) := Parse(text);
            && n == |OnSet(demand, count)|
            && (forall i :: i in OnSet(demand, count) <==> InSome(ranges, i))
            && (forall k :: 0 <= k < |ranges| ==> IsMaximal(demand, count, ranges[k]))
            && Separate(ranges)
            && (if n == 0 then text == "all off" else ReadsOn(text))
  {
    text := DescribeSectionDemand(demand, numberOfSections);
    TextIsExact(demand, numberOfSections, text);
  }

  lemma TextIsExact(demand: seq<bool>, numberOfSections: nat, text: string)
    requires var count := Counted(demand, numberOfSections);
             text == if OnCount(demand, count) == 0 then ALL_OFF
                     else Decimal(OnCount(demand, count)) + ON_TEXT + PrintRanges(Ranges(demand, count, count))
    ensures var count := Counted(demand, numberOfSections); var (n, ranges) := Parse(text);
            && n == |OnSet(demand, count)|
            && (forall i :: i in OnSet(demand, count) <==> InSome(ranges, i))
            && (forall k :: 0 <= k < |ranges| ==> IsMaximal(demand, count, ranges[k]))
            && Separate(ranges)
            && (if n == 0 then text == "all off" else ReadsOn(text))
  {
    hide ReadsOn, Decimal, OnCount, Ranges, PrintRanges, Parse;
    var count := Counted(demand, numberOfSections);
    TextRoundTrip(demand, count, text);
    TextReadsOn(OnCount(demand, count), PrintRanges(Ranges(demand, count, count)));
    CountIsSetSize(demand, count);
    RangesAreMaximal(demand, count, count);
    var ranges := Ranges(demand, count, count);
    assert forall k :: 0 <= k < |ranges| ==> MaximalBelow(demand, count, ranges[k], count);
    forall i ensures i in OnSet(demand, count) <==> InSome(ranges, i) {
      if i in OnSet(demand, count) {
        OnSectionsAreInRanges(demand, count, i, count);
      }
      if InSome(ranges, i) {
        var k :| 0 <= k < |ranges| && ranges[k].first <= i <= ranges[k].last;
        assert MaximalBelow(demand, count, ranges[k], count);
      }
    }
  }
}
