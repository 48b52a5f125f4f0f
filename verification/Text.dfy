/** Strings as the harness uses them: decimal numbers, white space, and the byte order
    that `sort` applies to names and timestamps. */
module Text {
  import opened Wrappers

  // ---- decimal numbers --------------------------------------------------------------------------

  const DIGITS := "0123456789"

  function Digit(n: nat): char
    requires n < 10
  {
    DIGITS[n]
  }

  predicate IsDigits(s: string) {
    forall i :: 0 <= i < |s| ==> '0' <= s[i] <= '9'
  }

  /** `{n:0width$}`: decimal, zero-padded to at least `width` digits. */
  function Pad(n: nat, width: nat): (s: string)
    ensures |s| > 0
    decreases n, width
  {
    if n < 10 && width <= 1 then [Digit(n)]
    else Pad(n / 10, if width == 0 then 0 else width - 1) + [Digit(n % 10)]
  }

  function Decimal(n: nat): string {
    Pad(n, 1)
  }

  /** The number a digit string denotes. */
  function Value(s: string): nat
    requires IsDigits(s)
  {
    if s == [] then 0 else 10 * Value(s[..|s| - 1]) + (s[|s| - 1] as nat - '0' as nat)
  }

  lemma {:induction false} PadRoundTrip(n: nat, width: nat)
    ensures IsDigits(Pad(n, width)) && Value(Pad(n, width)) == n
    decreases n, width
  {
    var s := Pad(n, width);
    if n < 10 && width <= 1 {
      assert s[..|s| - 1] == [];
    } else {
      var narrower := if width == 0 then 0 else width - 1;
      PadRoundTrip(n / 10, narrower);
      assert s[..|s| - 1] == Pad(n / 10, narrower);
    }
  }

  function Pow10(k: nat): nat {
    if k == 0 then 1 else 10 * Pow10(k - 1)
  }

  lemma OneDigitLess(n: nat, width: nat)
    requires width >= 1 && n < Pow10(width)
    ensures n / 10 < Pow10(width - 1)
  {
  }

  lemma {:induction false} PadWidth(n: nat, width: nat)
    requires width >= 1 && n < Pow10(width)
    ensures |Pad(n, width)| == width
  {
    if width > 1 {
      OneDigitLess(n, width);
      hide Pow10;
      PadWidth(n / 10, width - 1);
    }
  }

  // ---- the order of `str` -----------------------------------------------------------------------

  /** Lexicographic order on code units, the order Rust gives `str` and `Path` names. */
  predicate Less(a: string, b: string) {
    b != [] && (a == [] || a[0] < b[0] || (a[0] == b[0] && Less(a[1..], b[1..])))
  }

  predicate AtMost(a: string, b: string) {
    a == b || Less(a, b)
  }

  lemma {:induction false} LessIrreflexive(a: string)
    ensures !Less(a, a)
  {
    if a != [] { LessIrreflexive(a[1..]); }
  }

  lemma {:induction false} LessTransitive(a: string, b: string, c: string)
    requires Less(a, b) && Less(b, c)
    ensures Less(a, c)
  {
    if a != [] && a[0] == b[0] && b[0] == c[0] {
      LessTransitive(a[1..], b[1..], c[1..]);
    }
  }

  lemma {:induction false} LessTotal(a: string, b: string)
    ensures a == b || Less(a, b) || Less(b, a)
  {
    if a != [] && b != [] && a[0] == b[0] {
      LessTotal(a[1..], b[1..]);
      assert a == [a[0]] + a[1..] && b == [b[0]] + b[1..];
    }
  }

  lemma {:induction false} LessAsymmetric(a: string, b: string)
    requires Less(a, b)
    ensures !Less(b, a)
  {
    if Less(b, a) {
      LessTransitive(a, b, a);
      LessIrreflexive(a);
    }
  }

  /** A common prefix does not change the order of what follows it. */
  lemma {:induction false} LessAfterPrefix(p: string, a: string, b: string)
    ensures Less(p + a, p + b) <==> Less(a, b)
  {
    if p == [] {
      assert p + a == a && p + b == b;
    } else {
      LessAfterPrefix(p[1..], a, b);
      assert (p + a)[1..] == p[1..] + a && (p + b)[1..] == p[1..] + b;
    }
  }

  /** Fields of one width decide the order before anything after them does. */
  lemma {:induction false} LessByFirstField(a: string, b: string, x: string, y: string)
    requires |a| == |b| && Less(a, b)
    ensures Less(a + x, b + y)
  {
    assert (a + x)[1..] == a[1..] + x && (b + y)[1..] == b[1..] + y;
    if a[0] == b[0] {
      LessByFirstField(a[1..], b[1..], x, y);
    }
  }

  lemma DigitsKeepOrder(a: nat, b: nat)
    requires a < b < 10
    ensures Less([Digit(a)], [Digit(b)])
  {
  }

  /** Zero-padded numbers of one width sort as numbers. */
  lemma {:induction false} PadKeepsOrder(a: nat, b: nat, width: nat)
    requires width >= 1 && a < b < Pow10(width)
    ensures Less(Pad(a, width), Pad(b, width))
  {
    OneDigitLess(a, width);
    OneDigitLess(b, width);
    PadSplits(a, width);
    PadSplits(b, width);
    PowerOne();
    TenSplits(a, b);
    hide Pad, Less, Pow10, Digit;
    if width == 1 {
      DigitsKeepOrder(a, b);
    } else {
      var x, y := Pad(a / 10, width - 1), Pad(b / 10, width - 1);
      PadWidth(a / 10, width - 1);
      PadWidth(b / 10, width - 1);
      if a / 10 < b / 10 {
        PadKeepsOrder(a / 10, b / 10, width - 1);
        LessByFirstField(x, y, [Digit(a % 10)], [Digit(b % 10)]);
      } else {
        DigitsKeepOrder(a % 10, b % 10);
        LessAfterPrefix(x, [Digit(a % 10)], [Digit(b % 10)]);
      }
    }
  }

  lemma TenSplits(a: nat, b: nat)
    requires a < b
    ensures a / 10 < b / 10 || (a / 10 == b / 10 && a % 10 < b % 10)
  {
  }

  lemma PowerOne()
    ensures Pow10(1) == 10
  {
    assert Pow10(0) == 1;
  }

  lemma PadSplits(n: nat, width: nat)
    ensures width == 1 && n < 10 ==> Pad(n, width) == [Digit(n)]
    ensures width > 1 ==> Pad(n, width) == Pad(n / 10, width - 1) + [Digit(n % 10)]
  {
  }

  // ---- sorted lists of names --------------------------------------------------------------------

  ghost predicate StrictlySorted(names: seq<string>) {
    forall i, j :: 0 <= i < j < |names| ==> Less(names[i], names[j])
  }

  ghost predicate ListsInOrder(names: seq<string>, all: set<string>) {
    StrictlySorted(names) && forall n :: n in names <==> n in all
  }

  lemma {:induction false} InOrderIsUnique(a: seq<string>, b: seq<string>, all: set<string>)
    requires ListsInOrder(a, all) && ListsInOrder(b, all)
    ensures a == b
    decreases |a|
  {
    assert b != [] ==> b[0] in a;
    if a != [] {
      assert a[0] in b;
      assert b[0] in a;
      var i :| 0 <= i < |a| && a[i] == b[0];
      var j :| 0 <= j < |b| && b[j] == a[0];
      if i > 0 && j > 0 { LessAsymmetric(a[0], a[i]); }
      assert a[0] == b[0];
      var rest := all - {a[0]};
      TailInOrder(a, all);
      TailInOrder(b, all);
      InOrderIsUnique(a[1..], b[1..], rest);
      assert a == [a[0]] + a[1..] && b == [b[0]] + b[1..];
    }
  }

  lemma TailInOrder(names: seq<string>, all: set<string>)
    requires ListsInOrder(names, all) && names != []
    ensures ListsInOrder(names[1..], all - {names[0]})
  {
    LessIrreflexive(names[0]);
    forall n ensures n in names[1..] <==> n in all - {names[0]} {
      assert n in names <==> n == names[0] || n in names[1..];
      if n in names[1..] {
        var i :| 0 <= i < |names[1..]| && names[1..][i] == n;
        assert Less(names[0], names[i + 1]);
      }
    }
  }

  function Insert(name: string, sorted: seq<string>): (r: seq<string>)
    ensures forall n :: n in r <==> n == name || n in sorted
  {
    if sorted == [] || AtMost(name, sorted[0]) then
      var r := [name] + sorted;
      assert forall n :: n in r <==> n == name || n in sorted;
      r
    else
      var r := [sorted[0]] + Insert(name, sorted[1..]);
      assert forall n :: n in sorted <==> n == sorted[0] || n in sorted[1..];
      r
  }

  /** `sort`. */
  function Sort(names: seq<string>): (r: seq<string>)
    ensures forall n :: n in r <==> n in names
  {
    if names == [] then []
    else
      assert forall n :: n in names <==> n == names[0] || n in names[1..];
      Insert(names[0], Sort(names[1..]))
  }

  /** `dedup`: drop every name equal to the one before it. */
  function Dedup(names: seq<string>): (r: seq<string>)
    ensures forall n :: n in r <==> n in names
    ensures names != [] ==> r != [] && r[0] == names[0]
  {
    if |names| <= 1 then names
    else
      assert forall n :: n in names <==> n == names[0] || n in names[1..];
      assert names[1] in names[1..];
      if names[0] == names[1] then Dedup(names[1..]) else [names[0]] + Dedup(names[1..])
  }

  ghost predicate Sorted(names: seq<string>) {
    forall i, j :: 0 <= i < j < |names| ==> AtMost(names[i], names[j])
  }

  lemma {:induction false} InsertKeepsSorted(name: string, sorted: seq<string>)
    requires Sorted(sorted)
    ensures Sorted(Insert(name, sorted))
  {
    if sorted != [] {
      LessTotal(name, sorted[0]);
      if AtMost(name, sorted[0]) {
        forall j | 0 <= j < |sorted| ensures AtMost(name, sorted[j]) {
          if Less(name, sorted[0]) && j > 0 && Less(sorted[0], sorted[j]) {
            LessTransitive(name, sorted[0], sorted[j]);
          }
        }
      } else {
        InsertKeepsSorted(name, sorted[1..]);
        var rest := Insert(name, sorted[1..]);
        forall j | 0 <= j < |rest| ensures AtMost(sorted[0], rest[j]) {
          assert rest[j] in rest;
        }
      }
    }
  }

  lemma {:induction false} SortSorts(names: seq<string>)
    ensures Sorted(Sort(names))
  {
    if names != [] {
      SortSorts(names[1..]);
      InsertKeepsSorted(names[0], Sort(names[1..]));
    }
  }

  lemma {:induction false} DedupIsStrict(names: seq<string>)
    requires Sorted(names)
    ensures StrictlySorted(Dedup(names))
  {
    if |names| > 1 {
      DedupIsStrict(names[1..]);
      if names[0] != names[1] {
        var rest := Dedup(names[1..]);
        forall j | 0 <= j < |rest| ensures Less(names[0], rest[j]) {
          assert rest[j] in names[1..];
          var k :| 0 <= k < |names[1..]| && names[1..][k] == rest[j];
          assert AtMost(names[0], names[1]) && AtMost(names[1], names[k + 1]);
          if k > 0 && names[1] != names[k + 1] { LessTransitive(names[0], names[1], names[k + 1]); }
        }
      }
    }
  }

  // ---- white space ------------------------------------------------------------------------------

  /** Unicode White_Space, what `trim` removes. */
  predicate IsWhite(c: char) {
    c == ' ' || '\t' <= c <= '\r' || c == '\U{0085}' || c == '\U{00A0}' || c == '\U{1680}'
    || '\U{2000}' <= c <= '\U{200A}' || c == '\U{2028}' || c == '\U{2029}' || c == '\U{202F}'
    || c == '\U{205F}' || c == '\U{3000}'
  }

  function TrimStart(s: string): string {
    if s == [] || !IsWhite(s[0]) then s else TrimStart(s[1..])
  }

  /** The code points of Unicode's White_Space. */
  lemma WhiteIs(c: char)
    ensures var code := c as int;
            IsWhite(c) <==> 9 <= code <= 13 || 8192 <= code <= 8202
                            || code in {32, 133, 160, 5760, 8232, 8233, 8239, 8287, 12288}
  {
  }

  function TrimEnd(s: string): string {
    if s == [] || !IsWhite(s[|s| - 1]) then s else TrimEnd(s[..|s| - 1])
  }

  function Trim(s: string): string {
    TrimEnd(TrimStart(s))
  }

  lemma {:induction false} TrimStartIsASuffix(s: string) returns (from: nat)
    ensures from <= |s| && TrimStart(s) == s[from..]
    ensures TrimStart(s) != "" ==> !IsWhite(TrimStart(s)[0])
  {
    if s != "" && IsWhite(s[0]) {
      from := TrimStartIsASuffix(s[1..]);
      from := from + 1;
    } else {
      from := 0;
    }
  }

  lemma {:induction false} TrimEndIsAPrefix(s: string) returns (to: nat)
    ensures to <= |s| && TrimEnd(s) == s[..to]
    ensures TrimEnd(s) != "" ==> !IsWhite(TrimEnd(s)[|TrimEnd(s)| - 1])
  {
    if s != "" && IsWhite(s[|s| - 1]) {
      to := TrimEndIsAPrefix(s[..|s| - 1]);
    } else {
      to := |s|;
    }
  }

  lemma TrimIsASlice(s: string) returns (from: nat, to: nat)
    ensures from <= to <= |s| && Trim(s) == s[from..to]
    ensures Trim(s) != "" ==> !IsWhite(Trim(s)[0]) && !IsWhite(Trim(s)[|Trim(s)| - 1])
  {
    from := TrimStartIsASuffix(s);
    to := TrimEndIsAPrefix(TrimStart(s));
    to := from + to;
  }

  lemma {:induction false} TrimStartStopsAt(before: string, kept: string) returns (before': string)
    requires kept != [] && !IsWhite(kept[0])
    ensures TrimStart(before + kept) == before' + kept
  {
    if before == [] || !IsWhite(before[0]) {
      before' := before;
      assert before == [] ==> (before + kept)[0] == kept[0];
    } else {
      before' := TrimStartStopsAt(before[1..], kept);
      assert (before + kept)[1..] == before[1..] + kept;
    }
  }

  lemma {:induction false} TrimEndStopsAt(kept: string, after: string) returns (after': string)
    requires kept != [] && !IsWhite(kept[|kept| - 1])
    ensures TrimEnd(kept + after) == kept + after'
  {
    if after == [] || !IsWhite(after[|after| - 1]) {
      after' := after;
      assert after == [] ==> (kept + after)[|kept + after| - 1] == kept[|kept| - 1];
    } else {
      after' := TrimEndStopsAt(kept, after[..|after| - 1]);
      assert (kept + after)[..|kept + after| - 1] == kept + after[..|after| - 1];
    }
  }

  /** Whatever begins and ends with a character that is not white survives `trim`, wherever it
      stands in the text. */
  lemma TrimKeeps(before: string, kept: string, after: string)
    returns (before': string, after': string)
    requires kept != [] && !IsWhite(kept[0]) && !IsWhite(kept[|kept| - 1])
    ensures Trim(before + kept + after) == before' + kept + after'
  {
    assert before + kept + after == before + (kept + after);
    before' := TrimStartStopsAt(before, kept + after);
    assert before' + (kept + after) == (before' + kept) + after;
    after' := TrimEndStopsAt(before' + kept, after);
  }

  ghost predicate AllWhite(s: string) {
    forall i :: 0 <= i < |s| ==> IsWhite(s[i])
  }

  lemma {:induction false} TrimEndKeeps(s: string)
    ensures var kept := TrimEnd(s);
            && |kept| <= |s| && kept == s[..|kept|] && AllWhite(s[|kept|..])
            && (kept == "" || !IsWhite(kept[|kept| - 1]))
    decreases |s|
  {
    if s != "" && IsWhite(s[|s| - 1]) {
      var n := |s| - 1;
      TrimEndKeeps(s[..n]);
      var kept := TrimEnd(s);
      assert s[..n][|kept|..] + [s[n]] == s[|kept|..];
    }
  }

  lemma {:induction false} TrimsFront(before: string, kept: string)
    requires AllWhite(before) && (kept == "" || !IsWhite(kept[0]))
    ensures TrimStart(before + kept) == kept
  {
    if before == "" {
      assert before + kept == kept;
    } else {
      assert (before + kept)[1..] == before[1..] + kept;
      TrimsFront(before[1..], kept);
    }
  }

  lemma {:induction false} TrimsBack(kept: string, after: string)
    requires AllWhite(after) && (kept == "" || !IsWhite(kept[|kept| - 1]))
    ensures TrimEnd(kept + after) == kept
    decreases |after|
  {
    if after == "" {
      assert kept + after == kept;
    } else {
      assert (kept + after)[..|kept + after| - 1] == kept + after[..|after| - 1];
      TrimsBack(kept, after[..|after| - 1]);
    }
  }

  /** Trimming takes away the white space at both ends and nothing else. */
  lemma TrimIsExact(before: string, kept: string, after: string)
    requires AllWhite(before) && AllWhite(after)
    requires kept == "" || (!IsWhite(kept[0]) && !IsWhite(kept[|kept| - 1]))
    ensures Trim(before + kept + after) == kept
  {
    if kept == "" {
      assert before + kept + after == (before + after) + "";
      TrimsFront(before + after, "");
      assert TrimEnd("") == "";
    } else {
      assert before + kept + after == before + (kept + after);
      TrimsFront(before, kept + after);
      TrimsBack(kept, after);
    }
  }

  lemma {:induction false} TrimmedAway(s: string)
    ensures TrimStart(s) == "" <==> AllWhite(s)
  {
    if s != "" {
      TrimmedAway(s[1..]);
      assert forall i :: 1 <= i < |s| ==> s[i] == s[1..][i - 1];
    }
  }

  /** What starts with ink is not trimmed away from behind. */
  lemma {:induction false} TrimEndsAt(s: string)
    requires s != "" && !IsWhite(s[0])
    ensures TrimEnd(s) != ""
    decreases |s|
  {
    if IsWhite(s[|s| - 1]) { TrimEndsAt(s[..|s| - 1]); }
  }

  lemma BlankIsWhite(s: string)
    ensures Trim(s) == "" <==> AllWhite(s)
  {
    TrimmedAway(s);
    var start := TrimStart(s);
    var _ := TrimStartIsASuffix(s);
    if start != "" && Trim(s) == "" { TrimEndsAt(start); }
  }

  // ---- lengths in UTF-8 -------------------------------------------------------------------------

  function Utf8Width(c: char): nat {
    if c < '\U{0080}' then 1 else if c < '\U{0800}' then 2 else if c < '\U{10000}' then 3 else 4
  }

  /** Seven bits fit one byte, eleven two, sixteen three. */
  lemma Utf8WidthIs(c: char, n: nat)
    requires 1 <= n <= 3
    ensures Utf8Width(c) <= n <==> c as int < (if n == 1 then 128 else if n == 2 then 2048 else 65536)
    ensures 1 <= Utf8Width(c) <= 4
  {
  }

  /** `str::len`: bytes, not characters. */
  function Utf8Length(s: string): nat {
    if s == "" then 0 else Utf8Length(s[..|s| - 1]) + Utf8Width(s[|s| - 1])
  }

  /** What of `s` fits `max` bytes and ends between two characters. */
  function Fitting(s: string, max: nat): string {
    if Utf8Length(s) <= max then s else Fitting(s[..|s| - 1], max)
  }

  /** It is a prefix, it fits, and no longer prefix does. */
  lemma {:induction false} FittingIsLongest(s: string, max: nat, n: nat)
    requires n <= |s|
    ensures Fitting(s, max) <= s && Utf8Length(Fitting(s, max)) <= max
    ensures Utf8Length(s[..n]) <= max ==> n <= |Fitting(s, max)|
  {
    if Utf8Length(s) > max {
      if n < |s| {
        FittingIsLongest(s[..|s| - 1], max, n);
        assert s[..|s| - 1][..n] == s[..n];
      } else {
        FittingIsLongest(s[..|s| - 1], max, 0);
        assert s[..n] == s;
      }
    } else {
      assert s[..n] <= s;
    }
  }

  // ---- searching --------------------------------------------------------------------------------

  lemma Associative(a: string, b: string, c: string)
    ensures a + (b + c) == (a + b) + c
  {
  }

  predicate StartsWith(s: string, p: string) {
    |p| <= |s| && s[..|p|] == p
  }

  predicate MatchesAt(s: string, p: string, i: nat) {
    i + |p| <= |s| && s[i..i + |p|] == p
  }

  lemma MismatchAt(s: string, p: string, i: nat, k: nat)
    requires i <= k < i + |p| && k < |s| && s[k] != p[k - i]
    ensures !MatchesAt(s, p, i)
  {
  }

  lemma MatchSplit(s: string, a: string, b: string, i: nat)
    ensures MatchesAt(s, a + b, i) <==> MatchesAt(s, a, i) && MatchesAt(s, b, i + |a|)
  {
    if i + |a| + |b| <= |s| {
      assert s[i..i + |a| + |b|] == s[i..i + |a|] + s[i + |a|..i + |a| + |b|];
      if s[i..i + |a| + |b|] == a + b {
        assert s[i..i + |a|] == s[i..i + |a| + |b|][..|a|];
        assert s[i + |a|..i + |a| + |b|] == s[i..i + |a| + |b|][|a|..];
      }
    }
  }

  lemma MatchChar(s: string, p: string, i: nat, k: nat)
    requires MatchesAt(s, p, i) && k < |p|
    ensures s[i + k] == p[k]
  {
  }

  /** A match beyond the first part is a match in the second. */
  lemma MatchInRest(a: string, b: string, p: string, i: nat)
    requires |a| <= i
    ensures MatchesAt(a + b, p, i) <==> MatchesAt(b, p, i - |a|)
  {
  }

  /** A match within the first part is a match in it alone. */
  lemma MatchInFirst(a: string, b: string, p: string, i: nat)
    requires i + |p| <= |a|
    ensures MatchesAt(a + b, p, i) <==> MatchesAt(a, p, i)
  {
  }

  function FindFrom(s: string, p: string, i: nat): (r: Option<nat>)
    requires i <= |s|
    ensures r.Some? ==> i <= r.value && r.value + |p| <= |s|
    decreases |s| - i
  {
    if MatchesAt(s, p, i) then Some(i) else if i == |s| then None else FindFrom(s, p, i + 1)
  }

  /** `str::find`. */
  function Find(s: string, p: string): Option<nat> {
    FindFrom(s, p, 0)
  }

  lemma {:induction false} FindIsFirst(s: string, p: string, i: nat)
    requires i <= |s|
    ensures match FindFrom(s, p, i)
            case None => forall j :: i <= j <= |s| ==> !MatchesAt(s, p, j)
            case Some(n) => MatchesAt(s, p, n) && forall j :: i <= j < n ==> !MatchesAt(s, p, j)
    decreases |s| - i
  {
    if !MatchesAt(s, p, i) && i < |s| { FindIsFirst(s, p, i + 1); }
  }
}
