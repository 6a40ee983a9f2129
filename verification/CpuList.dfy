/** The kernel's CPU-list notation: the printer and the two parsers. */
module CpuList {
  import opened Prelude
  import opened Int64
  import opened Strconv

  datatype Span = Span(lo: int, hi: int)

  // ------------------------------------------------- what a list means

  /** The integers lo, lo + 1, ..., hi. */
  function Interval(lo: int, hi: int): (r: seq<int>)
    ensures |r| == if lo <= hi then hi - lo + 1 else 0
    ensures forall i :: 0 <= i < |r| ==> r[i] == lo + i
  {
    seq(if lo <= hi then hi - lo + 1 else 0, i => lo + i)
  }

  /** The bounds of a part of the list, if it is well formed: "a-b" with a <= b, or "a". */
  function Bounds(part: string): Option<Span> {
    var t := TrimSpace(part);
    if '-' in t then
      var k := IndexOf(t, '-');
      match (Atoi(t[..k]), Atoi(t[k + 1..]))
      case (Some(lo), Some(hi)) => if hi < lo then None else Some(Span(lo, hi))
      case _ => None
    else
      match Atoi(t)
      case Some(n) => Some(Span(n, n))
      case None => None
  }

  function PartCpus(part: string): seq<int> {
    match Bounds(part)
    case Some(Span(lo, hi)) => Interval(lo, hi)
    case None => []
  }

  /** The CPUs of the first n parts. */
  function AllCpus(parts: seq<string>, n: nat): seq<int>
    requires n <= |parts|
  {
    if n == 0 then [] else AllCpus(parts, n - 1) + PartCpus(parts[n - 1])
  }

  /** The CPUs a list denotes; malformed parts are skipped. */
  function Denoted(s: string): seq<int> {
    var parts := Split(s, ',');
    AllCpus(parts, |parts|)
  }

  // ------------------------------------------------- loops that do not end

  /** The counter of a loop from lo on, after n increments in 64-bit arithmetic. */
  function Counter(lo: int, n: nat): int {
    if n == 0 then lo else Wrap64(Counter(lo, n - 1) + 1)
  }

  /** The guard "counter <= hi" holds after every number of increments. */
  ghost predicate Unending(lo: int, hi: int) {
    forall n: nat :: Counter(lo, n) <= hi
  }

  lemma {:induction false} CounterBeforeWrap(lo: int, n: nat)
    requires MIN_INT <= lo && lo + n <= MAX_INT
    ensures Counter(lo, n) == lo + n
  {
    if n > 0 {
      CounterBeforeWrap(lo, n - 1);
    }
  }

  /** Such a loop fails to end exactly when its bound is the largest integer: the counter
      wraps before it can exceed that bound. */
  lemma UnendingIff(lo: int, hi: int)
    requires MIN_INT <= lo <= hi <= MAX_INT
    ensures Unending(lo, hi) <==> hi == MAX_INT
  {
    if hi < MAX_INT {
      CounterBeforeWrap(lo, hi - lo + 1);
    }
  }

  /** A part whose range the parser never gets to the end of. */
  ghost predicate EndlessPart(part: string) {
    '-' in TrimSpace(part) && Bounds(part).Some? && Unending(Bounds(part).value.lo, Bounds(part).value.hi)
  }

  ghost predicate Endless(s: string) {
    exists i :: 0 <= i < |Split(s, ',')| && EndlessPart(Split(s, ',')[i])
  }

  // ------------------------------------------------- the parsers

  /** What calling the parser comes to. */
  datatype Listing = Listed(cpus: seq<int>) | NeverReturns

  lemma IntervalGrows(lo: int, hi: int)
    requires lo <= hi + 1
    ensures Interval(lo, hi + 1) == Interval(lo, hi) + [hi + 1]
  {
  }

  /** The inner loop of ParseCPUList, where it ends. */
  method AppendInterval(cpus: seq<int>, lo: int, hi: int) returns (r: seq<int>)
    requires MIN_INT <= lo <= hi < MAX_INT
    ensures r == cpus + Interval(lo, hi)
  {
    r := cpus;
    var i := lo;
    while i <= hi
      invariant lo <= i <= hi + 1
      invariant r == cpus + Interval(lo, i - 1)
    {
      IntervalGrows(lo, i - 1);
      r := r + [i];
      i := Wrap64(i + 1);
    }
  }

  /** One round of the outer loop of ParseCPUList. */
  method AppendPart(cpus: seq<int>, untrimmed: string) returns (r: Listing)
    ensures r == if EndlessPart(untrimmed) then NeverReturns else Listed(cpus + PartCpus(untrimmed))
  {
    hide TrimSpace, IndexOf, Atoi, Unending, Interval;
    var part := TrimSpace(untrimmed);
    if '-' in part {
      var k := IndexOf(part, '-');
      var lo, hi := Atoi(part[..k]), Atoi(part[k + 1..]);
      if lo.None? || hi.None? || hi.value < lo.value {
        return Listed(cpus);
      }
      UnendingIff(lo.value, hi.value);
      if hi.value == MAX_INT {
        return NeverReturns;
      }
      var all := AppendInterval(cpus, lo.value, hi.value);
      return Listed(all);
    }
    var n := Atoi(part);
    if n.None? {
      return Listed(cpus);
    }
    assert Interval(n.value, n.value) == [n.value];
    return Listed(cpus + [n.value]);
  }

  /** The denoted CPUs, unless a part is endless. */
  method ParseCPUList(s: string) returns (r: Listing)
    ensures r == if Endless(s) then NeverReturns else Listed(Denoted(s))
  {
    hide PartCpus, EndlessPart;
    var cpus := [];
    var parts := Split(s, ',');
    for n := 0 to |parts|
      invariant cpus == AllCpus(parts, n)
      invariant forall i :: 0 <= i < n ==> !EndlessPart(parts[i])
    {
      var next := AppendPart(cpus, parts[n]);
      if next.NeverReturns? {
        return NeverReturns;
      }
      cpus := next.cpus;
    }
    return Listed(cpus);
  }

  /** One round of the loop of ParseCPURange, in wrapping arithmetic. */
  method CountPart(count: int, untrimmed: string) returns (r: int)
    requires MIN_INT <= count <= MAX_INT
    ensures r == Wrap64(count + |PartCpus(untrimmed)|)
  {
    hide Wrap64, TrimSpace, IndexOf, Atoi, Interval;
    r := count;
    var part := TrimSpace(untrimmed);
    if '-' in part {
      var k := IndexOf(part, '-');
      var lo, hi := Atoi(part[..k]), Atoi(part[k + 1..]);
      if lo.None? || hi.None? || hi.value < lo.value {
        return;
      }
      r := Wrap64(r + (hi.value - lo.value + 1));
    } else {
      var n := Atoi(part);
      if n.Some? {
        r := Wrap64(r + 1);
      }
    }
  }

  /** Counts in a 64-bit integer, without building the list; it terminates always, and
      the count is the length of the list exactly while that length fits. */
  method ParseCPURange(s: string) returns (count: int)
    ensures count == Wrap64(|Denoted(s)|)
    ensures count == |Denoted(s)| <==> |Denoted(s)| <= MAX_INT
  {
    hide PartCpus;
    count := 0;
    var parts := Split(s, ',');
    for n := 0 to |parts|
      invariant count == Wrap64(|AllCpus(parts, n)|)
    {
      WrapAdd(|AllCpus(parts, n)|, |PartCpus(parts[n])|);
      count := CountPart(count, parts[n]);
    }
  }

  // ------------------------------------------------- the printer

  function Insert(x: int, s: seq<int>): (r: seq<int>)
    requires Ascending(s)
    ensures Ascending(r) && multiset(r) == multiset(s) + multiset{x}
  {
    if |s| == 0 || x <= s[0] then
      [x] + s
    else
      var rest := Insert(x, s[1..]);
      InsertedLater(x, s, rest);
      [s[0]] + rest
  }

  lemma InsertedLater(x: int, s: seq<int>, rest: seq<int>)
    requires |s| > 0 && Ascending(s) && s[0] < x
    requires Ascending(rest) && multiset(rest) == multiset(s[1..]) + multiset{x}
    ensures Ascending([s[0]] + rest) && multiset([s[0]] + rest) == multiset(s) + multiset{x}
  {
    assert s == [s[0]] + s[1..];
    forall i | 0 <= i < |rest| ensures s[0] <= rest[i] {
      assert rest[i] in multiset(rest);
      if rest[i] != x {
        assert rest[i] in s[1..];
      }
    }
  }

  /** The outcome of the library sort. */
  function Sorted(s: seq<int>): (r: seq<int>)
    ensures Ascending(r) && multiset(r) == multiset(s)
  {
    if |s| == 0 then [] else
      assert s == s[..|s| - 1] + [s[|s| - 1]];
      Insert(s[|s| - 1], Sorted(s[..|s| - 1]))
  }

  predicate Ascending(s: seq<int>) {
    forall i, j :: 0 <= i < j < |s| ==> s[i] <= s[j]
  }

  /** Groups runs of consecutive numbers, extending the last group where possible. */
  function Ranges(s: seq<int>): seq<Span> {
    if |s| == 0 then [] else Extend(Ranges(s[..|s| - 1]), s[|s| - 1])
  }

  /** Adds the next number to the ranges so far. */
  function Extend(rs: seq<Span>, x: int): seq<Span> {
    if |rs| > 0 && x == rs[|rs| - 1].hi + 1 then
      rs[..|rs| - 1] + [Span(rs[|rs| - 1].lo, x)]
    else
      rs + [Span(x, x)]
  }

  lemma ExtendLast(rs: seq<Span>, lo: int, hi: int, x: int)
    ensures Extend(rs + [Span(lo, hi)], x) ==
      if x == hi + 1 then rs + [Span(lo, x)] else rs + [Span(lo, hi)] + [Span(x, x)]
  {
  }

  /** Every range is made of listed numbers, and the last one ends with the last number. */
  lemma {:induction false} RangesShape(s: seq<int>)
    ensures |Ranges(s)| > 0 <==> |s| > 0
    ensures |s| > 0 ==> Ranges(s)[|Ranges(s)| - 1].hi == s[|s| - 1]
    ensures forall k :: 0 <= k < |Ranges(s)| ==>
      Ranges(s)[k].lo <= Ranges(s)[k].hi && Ranges(s)[k].lo in s && Ranges(s)[k].hi in s
  {
    if |s| > 0 {
      var init, x := s[..|s| - 1], s[|s| - 1];
      RangesShape(init);
      assert s == init + [x];
    }
  }

  function RangeText(r: Span): string {
    if r.lo == r.hi then Itoa(r.lo) else Itoa(r.lo) + "-" + Itoa(r.hi)
  }

  function Render(rs: seq<Span>): string {
    if |rs| == 0 then ""
    else if |rs| == 1 then RangeText(rs[0])
    else Render(rs[..|rs| - 1]) + "," + RangeText(rs[|rs| - 1])
  }

  method Flush(sb: string, start: int, end: int, ghost rs: seq<Span>) returns (sb': string)
    requires sb == Render(rs)
    ensures sb' == Render(rs + [Span(start, end)])
  {
    hide Render, Itoa;
    RenderSnoc(rs, Span(start, end));
    sb' := sb;
    if |sb'| > 0 {
      sb' := sb' + ",";
    }
    ghost var prefix := sb';
    if start == end {
      sb' := sb' + Itoa(start);
    } else {
      sb' := sb' + Itoa(start);
      sb' := sb' + "-";
      sb' := sb' + Itoa(end);
    }
    assert sb' == prefix + RangeText(Span(start, end));
  }

  lemma RenderSnoc(rs: seq<Span>, r: Span)
    ensures |Render(rs)| > 0 <==> |rs| > 0
    ensures Render(rs + [r]) == (if |Render(rs)| > 0 then Render(rs) + "," else Render(rs)) + RangeText(r)
  {
    assert (rs + [r])[..|rs|] == rs;
    RenderNonEmpty(rs);
  }

  lemma RenderNonEmpty(rs: seq<Span>)
    ensures |Render(rs)| > 0 <==> |rs| > 0
  {
  }

  lemma RangesStep(s: seq<int>, i: nat)
    requires i < |s|
    ensures Ranges(s[..i + 1]) == Extend(Ranges(s[..i]), s[i])
  {
    assert s[..i + 1][..i] == s[..i];
  }

  /** CPUSet.String: sorts a copy and prints maximal runs as ranges. */
  method Print(cs: seq<int>) returns (s: string)
    ensures s == Render(Ranges(Sorted(cs)))
  {
    if |cs| == 0 {
      return "";
    }
    var sorted := Sorted(cs);
    SortedLength(cs);
    s := "";
    var start, end := sorted[0], sorted[0];
    ghost var done: seq<Span> := [];
    RangesStep(sorted, 0);
    for i := 1 to |sorted|
      invariant s == Render(done)
      invariant Ranges(sorted[..i]) == done + [Span(start, end)]
    {
      RangesStep(sorted, i);
      var cpu := sorted[i];
      ExtendLast(done, start, end, cpu);
      if cpu == end + 1 {
        end := cpu;
      } else {
        s := Flush(s, start, end, done);
        done := done + [Span(start, end)];
        start := cpu;
        end := cpu;
      }
    }
    assert sorted[..|sorted|] == sorted;
    s := Flush(s, start, end, done);
  }

  lemma SortedLength(cs: seq<int>)
    ensures |Sorted(cs)| == |cs|
  {
    assert |multiset(Sorted(cs))| == |multiset(cs)|;
  }

  // ------------------------------------------------- round trip

  function Expand(rs: seq<Span>): seq<int> {
    if |rs| == 0 then [] else Expand(rs[..|rs| - 1]) + Interval(rs[|rs| - 1].lo, rs[|rs| - 1].hi)
  }

  lemma ExpandSnoc(rs: seq<Span>, r: Span)
    ensures Expand(rs + [r]) == Expand(rs) + Interval(r.lo, r.hi)
  {
    assert (rs + [r])[..|rs|] == rs;
  }

  lemma ExpandLonger(rs: seq<Span>, lo: int, hi: int)
    requires lo <= hi + 1
    ensures Expand(rs + [Span(lo, hi + 1)]) == Expand(rs + [Span(lo, hi)]) + [hi + 1]
  {
    ExpandSnoc(rs, Span(lo, hi));
    ExpandSnoc(rs, Span(lo, hi + 1));
    IntervalGrows(lo, hi);
  }

  /** The two cases of Extend: a new group, or the last group made longer. */
  lemma ExtendCases(rs: seq<Span>, x: int) returns (init: seq<Span>, lo: int)
    ensures Extend(rs, x) == init + [Span(lo, x)]
    ensures (init == rs && lo == x) || rs == init + [Span(lo, x - 1)]
  {
    if |rs| > 0 && x == rs[|rs| - 1].hi + 1 {
      init, lo := rs[..|rs| - 1], rs[|rs| - 1].lo;
    } else {
      init, lo := rs, x;
    }
  }

  lemma ExpandExtend(rs: seq<Span>, x: int)
    requires |rs| > 0 ==> rs[|rs| - 1].lo <= rs[|rs| - 1].hi
    ensures Expand(Extend(rs, x)) == Expand(rs) + [x]
  {
    var init, lo := ExtendCases(rs, x);
    if rs == init + [Span(lo, x - 1)] {
      assert rs[|rs| - 1] == Span(lo, x - 1);
      ExpandLonger(init, lo, x - 1);
    } else {
      ExpandSnoc(init, Span(x, x));
    }
  }

  lemma {:induction false} ExpandRanges(s: seq<int>)
    ensures Expand(Ranges(s)) == s
  {
    if |s| > 0 {
      var init := s[..|s| - 1];
      ExpandRanges(init);
      RangesShape(init);
      ExpandExtend(Ranges(init), s[|s| - 1]);
      assert s == init + [s[|s| - 1]];
    }
  }

  predicate IsCpu(n: int) {
    0 <= n <= MAX_INT
  }

  lemma DigitsOnly(s: string)
    requires AllDigits(s) && |s| > 0
    ensures TrimSpace(s) == s && '-' !in s && ',' !in s
  {
    assert IsDigit(s[0]) && IsDigit(s[|s| - 1]);
  }

  lemma RangeTextReads(r: Span)
    requires IsCpu(r.lo) && IsCpu(r.hi) && r.lo <= r.hi
    ensures Bounds(RangeText(r)) == Some(r)
    ensures '-' in TrimSpace(RangeText(r)) <==> r.lo < r.hi
  {
    DigitsOnly(Itoa(r.lo));
    DigitsOnly(Itoa(r.hi));
    AtoiOfItoa(r.lo);
    AtoiOfItoa(r.hi);
    if r.lo < r.hi {
      DashedText(Itoa(r.lo), Itoa(r.hi));
    }
  }

  lemma NoComma(r: Span)
    requires IsCpu(r.lo) && IsCpu(r.hi)
    ensures ',' !in RangeText(r)
  {
    DigitsOnly(Itoa(r.lo));
    DigitsOnly(Itoa(r.hi));
  }

  lemma DashedText(a: string, b: string)
    requires AllDigits(a) && AllDigits(b) && |a| > 0 && |b| > 0
    ensures var t := a + "-" + b;
      && TrimSpace(t) == t && '-' in t && IndexOf(t, '-') == |a|
      && t[..|a|] == a && t[|a| + 1..] == b
  {
    var t := a + "-" + b;
    assert t[0] == a[0] && IsDigit(a[0]);
    assert t[|t| - 1] == b[|b| - 1] && IsDigit(b[|b| - 1]);
    DigitsOnly(a);
    IndexAfter(a, '-', b);
    assert t == a + ['-'] + b;
  }

  /** What single parts denote: a number itself, "a-b" the interval, also with white space
      around it, and nothing for a reversed range or a negative number. */
  lemma PartMeaning(lo: int, hi: int, before: string, after: string)
    requires IsCpu(lo) && IsCpu(hi) && lo < hi
    requires forall i :: 0 <= i < |before| ==> IsSpace(before[i])
    requires forall i :: 0 <= i < |after| ==> IsSpace(after[i])
    ensures PartCpus(before + Itoa(lo) + after) == [lo]
    ensures PartCpus(before + (Itoa(lo) + "-" + Itoa(hi)) + after) == Interval(lo, hi)
    ensures PartCpus(before + (Itoa(hi) + "-" + Itoa(lo)) + after) == []
    ensures PartCpus(before + ("-" + Itoa(hi)) + after) == []
  {
    hide TrimSpace, Atoi, Itoa, IsSpace, IndexOf;
    var a, b := Itoa(lo), Itoa(hi);
    AtoiOfItoa(lo);
    AtoiOfItoa(hi);
    DigitsOnly(a);
    DigitsOnly(b);
    DashedText(a, b);
    DashedText(b, a);
    DigitEnds(a);
    DigitEnds(b);
    TrimsAround(before, a, after);
    TrimsAround(before, a + "-" + b, after);
    TrimsAround(before, b + "-" + a, after);
    NegativePart(before, b, after);
  }

  lemma DigitEnds(s: string)
    requires AllDigits(s) && |s| > 0
    ensures !IsSpace(s[0]) && !IsSpace(s[|s| - 1])
  {
    assert IsDigit(s[0]) && IsDigit(s[|s| - 1]);
  }

  lemma NegativePart(before: string, digits: string, after: string)
    requires forall i :: 0 <= i < |before| ==> IsSpace(before[i])
    requires forall i :: 0 <= i < |after| ==> IsSpace(after[i])
    requires AllDigits(digits) && |digits| > 0
    ensures PartCpus(before + ("-" + digits) + after) == []
  {
    DigitEnds(digits);
    var t := "-" + digits;
    assert t[|t| - 1] == digits[|digits| - 1] && t[0] == '-';
    TrimsAround(before, t, after);
    assert IndexOf(t, '-') == 0;
    assert Atoi(t[..0]) == None;
  }

  /** One more part adds its CPUs; the parts do not influence each other. */
  lemma DenotedJoins(s: string, part: string)
    requires ',' !in part
    ensures Denoted(s + "," + part) == Denoted(s) + PartCpus(part)
  {
    hide PartCpus, Split;
    SplitJoined(s, part, ',');
    var parts := Split(s, ',');
    assert s + "," + part == s + [','] + part;
    AllCpusPrefix(parts, parts + [part], |parts|);
  }

  predicate CpuRanges(rs: seq<Span>) {
    forall k :: 0 <= k < |rs| ==> IsCpu(rs[k].lo) && IsCpu(rs[k].hi) && rs[k].lo <= rs[k].hi
  }

  function Texts(rs: seq<Span>): seq<string> {
    seq(|rs|, k requires 0 <= k < |rs| => RangeText(rs[k]))
  }

  lemma {:induction false} SplitRender(rs: seq<Span>)
    requires CpuRanges(rs) && |rs| > 0
    ensures Split(Render(rs), ',') == Texts(rs)
  {
    var init, last := rs[..|rs| - 1], rs[|rs| - 1];
    var text := RangeText(last);
    NoComma(last);
    TextsSnoc(rs);
    if |rs| == 1 {
      SplitWhole(text, ',');
    } else {
      SplitRender(init);
      SplitJoined(Render(init), text, ',');
      assert Render(rs) == Render(init) + [','] + text;
    }
  }

  lemma TextsSnoc(rs: seq<Span>)
    requires |rs| > 0
    ensures Texts(rs) == Texts(rs[..|rs| - 1]) + [RangeText(rs[|rs| - 1])]
  {
  }

  lemma {:induction false} AllCpusPrefix(parts: seq<string>, more: seq<string>, n: nat)
    requires n <= |parts| && parts <= more
    ensures AllCpus(parts, n) == AllCpus(more, n)
  {
    hide PartCpus;
    if n > 0 {
      AllCpusPrefix(parts, more, n - 1);
    }
  }

  lemma {:induction false} TextsDenote(rs: seq<Span>)
    requires CpuRanges(rs)
    ensures AllCpus(Texts(rs), |rs|) == Expand(rs)
  {
    if |rs| > 0 {
      var init, last := rs[..|rs| - 1], rs[|rs| - 1];
      TextsDenote(init);
      RangeTextReads(last);
      AllCpusPrefix(Texts(init), Texts(rs), |init|);
    }
  }

  /** The parser reads the printed ranges back. */
  lemma RenderReads(rs: seq<Span>)
    requires CpuRanges(rs) && |rs| > 0
    ensures Denoted(Render(rs)) == Expand(rs)
  {
    SplitRender(rs);
    TextsDenote(rs);
  }

  /** Printing and then parsing a list of CPU ids, in any order and with
      repetitions, yields the ids sorted. */
  lemma RoundTrip(cs: seq<int>)
    requires forall n :: n in cs ==> IsCpu(n)
    ensures Denoted(Render(Ranges(Sorted(cs)))) == Sorted(cs)
  {
    var s := Sorted(cs);
    var rs := Ranges(s);
    if |cs| == 0 {
      assert Split("", ',') == [""];
      assert Atoi("") == None;
      assert AllCpus([""], 1) == AllCpus([""], 0) + PartCpus("");
    } else {
      SortedMembers(cs);
      SortedLength(cs);
      RangesShape(s);
      RenderReads(rs);
      ExpandRanges(s);
    }
  }

  /** For distinct ids the printed ranges are maximal: no two could be merged. */
  lemma {:induction false} RangesMaximal(s: seq<int>)
    requires forall i, j :: 0 <= i < j < |s| ==> s[i] < s[j]
    ensures forall k :: 0 <= k < |Ranges(s)| - 1 ==> Ranges(s)[k].hi + 1 < Ranges(s)[k + 1].lo
  {
    if |s| > 0 {
      var init := s[..|s| - 1];
      RangesMaximal(init);
      RangesShape(init);
    }
  }

  /** The parser gets to the end of what the printer wrote, unless the two largest
      integers are both present. */
  lemma PrintedIsFinite(cs: seq<int>)
    requires forall n :: n in cs ==> IsCpu(n)
    ensures Endless(Render(Ranges(Sorted(cs)))) <==> MAX_INT in cs && MAX_INT - 1 in cs
  {
    var s := Sorted(cs);
    SortedMembers(cs);
    if |s| == 0 {
      assert Split("", ',') == [""];
    } else {
      TopRange(s);
      RangesShape(s);
      RenderEndless(Ranges(s));
    }
  }

  lemma SortedMembers(cs: seq<int>)
    ensures forall n :: n in Sorted(cs) <==> n in cs
  {
    assert forall n :: n in Sorted(cs) <==> n in multiset(Sorted(cs));
    assert forall n :: n in cs <==> n in multiset(cs);
  }

  lemma RenderEndless(rs: seq<Span>)
    requires CpuRanges(rs) && |rs| > 0
    ensures Endless(Render(rs)) <==> HasTop(rs)
  {
    SplitRender(rs);
    var parts := Split(Render(rs), ',');
    forall k | 0 <= k < |rs| ensures EndlessPart(parts[k]) <==> IsTop(rs[k]) {
      RangeTextReads(rs[k]);
      UnendingIff(rs[k].lo, rs[k].hi);
    }
  }

  predicate IsTop(r: Span) {
    r.lo < r.hi == MAX_INT
  }

  predicate HasTop(rs: seq<Span>) {
    exists k :: 0 <= k < |rs| && IsTop(rs[k])
  }

  lemma HasTopSnoc(rs: seq<Span>, r: Span)
    ensures HasTop(rs + [r]) <==> HasTop(rs) || IsTop(r)
  {
    var all := rs + [r];
    assert all[|rs|] == r;
    assert forall k :: 0 <= k < |rs| ==> all[k] == rs[k];
  }

  lemma HasTopExtend(rs: seq<Span>, x: int)
    requires x <= MAX_INT
    requires |rs| > 0 ==> rs[|rs| - 1].lo <= rs[|rs| - 1].hi
    ensures HasTop(Extend(rs, x)) <==> HasTop(rs) || (|rs| > 0 && rs[|rs| - 1].hi + 1 == x == MAX_INT)
  {
    var others, lo := ExtendCases(rs, x);
    HasTopSnoc(others, Span(lo, x));
    if rs == others + [Span(lo, x - 1)] {
      assert rs[|rs| - 1] == Span(lo, x - 1);
      HasTopSnoc(others, Span(lo, x - 1));
    }
  }

  lemma {:induction false} TopRange(s: seq<int>)
    requires Ascending(s) && forall n :: n in s ==> IsCpu(n)
    ensures HasTop(Ranges(s)) <==> MAX_INT in s && MAX_INT - 1 in s
  {
    if |s| > 0 {
      var init, x := s[..|s| - 1], s[|s| - 1];
      assert x in s && s == init + [x];
      TopRange(init);
      RangesShape(init);
      HasTopExtend(Ranges(init), x);
      TopMembers(init, x);
    }
  }

  /** Where the two largest integers can be in init + [x], whose last entry is the largest. */
  lemma TopMembers(init: seq<int>, x: int)
    requires Ascending(init + [x]) && x <= MAX_INT
    ensures MAX_INT in init + [x] && MAX_INT - 1 in init + [x] <==>
      (MAX_INT in init && MAX_INT - 1 in init) || (|init| > 0 && init[|init| - 1] + 1 == x == MAX_INT)
  {
    var s := init + [x];
    assert s[|init|] == x;
    forall k | 0 <= k < |init| ensures init[k] <= init[|init| - 1] <= x {
      assert s[k] == init[k] && s[|init| - 1] == init[|init| - 1];
    }
  }

  /** The length of a list need not fit 64 bits: this one denotes 2^63 CPUs and is counted as -2^63. */
  lemma CountOverflows()
    ensures |Denoted(RangeText(Span(0, MAX_INT)))| == MAX_INT + 1
    ensures Wrap64(|Denoted(RangeText(Span(0, MAX_INT)))|) == MIN_INT
    ensures Endless(RangeText(Span(0, MAX_INT)))
  {
    var r := Span(0, MAX_INT);
    RangeTextReads(r);
    NoComma(r);
    SplitWhole(RangeText(r), ',');
    assert AllCpus([RangeText(r)], 1) == AllCpus([RangeText(r)], 0) + PartCpus(RangeText(r));
    UnendingIff(0, MAX_INT);
    assert EndlessPart(Split(RangeText(r), ',')[0]);
  }
}
