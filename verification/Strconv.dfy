/** The library routines the CPU-list code relies on: decimal conversion with
    64-bit range checks, comma splitting and trimming. */
module Strconv {
  import opened Prelude
  import opened Int64

  // ------------------------------------------------- decimal numbers

  predicate IsDigit(c: char) {
    '0' <= c <= '9'
  }

  function DigitValue(c: char): (d: nat)
    requires IsDigit(c)
    ensures d < 10
  {
    c as int - '0' as int
  }

  function DigitChar(d: nat): (c: char)
    requires d < 10
    ensures IsDigit(c) && DigitValue(c) == d
  {
    (d + '0' as int) as char
  }

  predicate AllDigits(s: string) {
    forall i :: 0 <= i < |s| ==> IsDigit(s[i])
  }

  function Decimal(s: string): nat
    requires AllDigits(s)
  {
    if |s| == 0 then 0 else 10 * Decimal(s[..|s| - 1]) + DigitValue(s[|s| - 1])
  }

  /** Base-10 Atoi: an optional sign, at least one digit, 64-bit range. */
  function Atoi(s: string): (r: Option<int>)
    ensures r.Some? ==> MIN_INT <= r.value <= MAX_INT
  {
    if |s| == 0 then None else
      var body := if s[0] == '-' || s[0] == '+' then s[1..] else s;
      if |body| == 0 || !AllDigits(body) then None else
        var v := if s[0] == '-' then 0 - Decimal(body) else Decimal(body) as int;
        if MIN_INT <= v <= MAX_INT then Some(v) else None
  }

  function Numeral(n: nat): (s: string)
    ensures |s| >= 1 && AllDigits(s) && Decimal(s) == n
  {
    if n < 10 then [DigitChar(n)] else Numeral(n / 10) + [DigitChar(n % 10)]
  }

  function Itoa(n: int): (s: string)
    ensures |s| >= 1
    ensures n >= 0 ==> AllDigits(s)
  {
    if n < 0 then "-" + Numeral(-n) else Numeral(n)
  }

  /** A printed number reads back exactly when it fits 64 bits. */
  lemma AtoiOfItoa(n: int)
    ensures Atoi(Itoa(n)) == if MIN_INT <= n <= MAX_INT then Some(n) else None
    ensures n >= 0 ==> Atoi("+" + Itoa(n)) == if n <= MAX_INT then Some(n) else None
  {
    if n >= 0 {
      assert IsDigit(Numeral(n)[0]);
      assert ("+" + Itoa(n))[1..] == Itoa(n);
    } else {
      assert Itoa(n)[1..] == Numeral(-n);
    }
  }

  /** Nothing but digits behind an optional sign is a number. */
  lemma NoNumber(s: string, i: nat)
    requires i < |s| && !IsDigit(s[i]) && (i > 0 || (s[0] != '-' && s[0] != '+') || |s| == 1)
    ensures Atoi(s) == None
  {
    if s[0] == '-' || s[0] == '+' {
      if i > 0 {
        assert s[1..][i - 1] == s[i];
      }
    }
  }

  // ------------------------------------------------- splitting and trimming

  /** The Unicode white space that TrimSpace removes. */
  predicate IsSpace(c: char) {
    var u := c as int;
    (9 <= u <= 13) || u == 0x20 || u == 0x85 || u == 0xA0 || u == 0x1680 || (0x2000 <= u <= 0x200a)
    || u == 0x2028 || u == 0x2029 || u == 0x202f || u == 0x205f || u == 0x3000
  }

  function TrimSpace(s: string): string {
    if |s| == 0 then s
    else if IsSpace(s[0]) then TrimSpace(s[1..])
    else if IsSpace(s[|s| - 1]) then TrimSpace(s[..|s| - 1])
    else s
  }

  /** Surrounding white space is removed, and nothing else. */
  lemma {:induction false} TrimsAround(before: string, t: string, after: string)
    requires forall i :: 0 <= i < |before| ==> IsSpace(before[i])
    requires forall i :: 0 <= i < |after| ==> IsSpace(after[i])
    requires |t| > 0 && !IsSpace(t[0]) && !IsSpace(t[|t| - 1])
    ensures TrimSpace(before + t + after) == t
    decreases |before| + |after|
  {
    hide IsSpace;
    var s := before + t + after;
    if |before| > 0 {
      assert s[1..] == before[1..] + t + after;
      TrimsAround(before[1..], t, after);
    } else if |after| > 0 {
      assert s[0] == t[0] && s[|s| - 1] == after[|after| - 1];
      assert s[..|s| - 1] == before + t + after[..|after| - 1];
      TrimsAround(before, t, after[..|after| - 1]);
    } else {
      assert s == t;
    }
  }

  /** The pieces between separators; never empty. */
  function Split(s: string, sep: char): (parts: seq<string>)
    ensures |parts| >= 1
  {
    if |s| == 0 then [""]
    else
      var rest := Split(s[1..], sep);
      if s[0] == sep then [""] + rest else [[s[0]] + rest[0]] + rest[1..]
  }

  lemma {:induction false} SplitWhole(s: string, sep: char)
    requires sep !in s
    ensures Split(s, sep) == [s]
  {
    if |s| > 0 {
      SplitWhole(s[1..], sep);
      assert [s[0]] + s[1..] == s;
    }
  }

  lemma {:induction false} SplitJoined(a: string, b: string, sep: char)
    requires sep !in b
    ensures Split(a + [sep] + b, sep) == Split(a, sep) + [b]
  {
    var s := a + [sep] + b;
    if |a| == 0 {
      assert s[1..] == b;
      SplitWhole(b, sep);
    } else {
      assert s[1..] == a[1..] + [sep] + b;
      SplitJoined(a[1..], b, sep);
    }
  }

  /** The position of the first c in s. */
  function IndexOf(s: string, c: char): (k: nat)
    requires c in s
    ensures k < |s| && s[k] == c && c !in s[..k]
  {
    if s[0] == c then 0 else
      assert s[1..][..IndexOf(s[1..], c)] == s[1..IndexOf(s[1..], c) + 1];
      1 + IndexOf(s[1..], c)
  }

  lemma {:induction false} IndexAfter(a: string, c: char, b: string)
    requires c !in a
    ensures c in a + [c] + b && IndexOf(a + [c] + b, c) == |a|
  {
    var s := a + [c] + b;
    assert s[|a|] == c;
    if |a| > 0 {
      assert s[1..] == a[1..] + [c] + b;
      IndexAfter(a[1..], c, b);
    }
  }
}
