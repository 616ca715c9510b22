/** The list notation for bitmaps in pkg/bitmap/format.go, such as "0,3-7,10":
    parsing what was formatted gives back the same set. */
module BitmapFormat {
  import opened Options
  import opened Bitmap
  import BitWords

  // ---------------------------------------------------------------------
  // Decimal numbers
  // ---------------------------------------------------------------------

  function Digit(d: nat): char
    requires d < 10
  {
    "0123456789"[d]
  }

  predicate IsDigit(c: char) {
    '0' <= c <= '9'
  }

  function DigitValue(c: char): nat
    requires IsDigit(c)
  {
    (c - '0') as nat
  }

  /** %d. */
  function Decimal(n: nat): string {
    if n < 10 then [Digit(n)] else Decimal(n / 10) + [Digit(n % 10)]
  }

  predicate AllDigits(s: string) {
    forall i | 0 <= i < |s| :: IsDigit(s[i])
  }

  function Value(s: string): nat
    requires AllDigits(s)
  {
    if s == "" then 0 else 10 * Value(s[..|s| - 1]) + DigitValue(s[|s| - 1])
  }

  /** strconv.ParseUint(s, 10, 32). */
  function ParseUint(s: string): Option<nat> {
    if s == "" || !AllDigits(s) then None
    else if Value(s) >= LIMIT32 then None
    else Some(Value(s))
  }

  lemma DigitFacts(d: nat)
    requires d < 10
    ensures IsDigit(Digit(d)) && DigitValue(Digit(d)) == d
  {
  }

  lemma OneDigit(c: char)
    requires IsDigit(c)
    ensures AllDigits([c]) && Value([c]) == DigitValue(c)
  {
    hide DigitValue;
    assert [c][..0] == "";
  }

  lemma MoreDigits(s: string, c: char)
    requires AllDigits(s) && IsDigit(c)
    ensures AllDigits(s + [c]) && Value(s + [c]) == 10 * Value(s) + DigitValue(c)
  {
    hide DigitValue;
    assert (s + [c])[..|s|] == s;
  }

  lemma {:induction false} DecimalValue(n: nat)
    ensures Decimal(n) != "" && AllDigits(Decimal(n)) && Value(Decimal(n)) == n
  {
    hide Value;
    hide Digit;
    hide DigitValue;
    hide IsDigit;
    hide AllDigits;
    DigitFacts(n % 10);
    if n < 10 {
      OneDigit(Digit(n));
    } else {
      DecimalValue(n / 10);
      MoreDigits(Decimal(n / 10), Digit(n % 10));
    }
  }

  // ---------------------------------------------------------------------
  // Splitting and joining
  // ---------------------------------------------------------------------

  function Index(s: string, c: char): (i: nat)
    requires c in s
    ensures i < |s| && s[i] == c && c !in s[..i]
  {
    if s[0] == c then 0 else 1 + Index(s[1..], c)
  }

  function Split(s: string, c: char): seq<string> {
    if c !in s then [s] else [s[..Index(s, c)]] + Split(s[Index(s, c) + 1..], c)
  }

  function Join(parts: seq<string>, c: char): string {
    if |parts| == 0 then "" else if |parts| == 1 then parts[0] else parts[0] + [c] + Join(parts[1..], c)
  }

  lemma {:induction false} SplitJoin(parts: seq<string>, c: char)
    requires parts != [] && forall p <- parts :: c !in p
    ensures Split(Join(parts, c), c) == parts
  {
    if |parts| > 1 {
      SplitJoin(parts[1..], c);
      var s := Join(parts, c);
      var n := |parts[0]|;
      assert s[n] == c && s[..n] == parts[0] && s[n + 1..] == Join(parts[1..], c);
      FirstIndex(s, c, n);
    }
  }

  lemma {:induction false} FirstIndex(s: string, c: char, n: nat)
    requires n < |s| && s[n] == c && c !in s[..n]
    ensures c in s && Index(s, c) == n
  {
    if n > 0 {
      assert s[0] == s[..n][0];
      assert s[1..][..n - 1] == s[..n][1..];
      FirstIndex(s[1..], c, n - 1);
    }
  }

  // ---------------------------------------------------------------------
  // Tokens
  // ---------------------------------------------------------------------

  /** The numbers lo to hi. */
  datatype Run = Run(lo: nat, hi: nat)

  predicate Fits(r: Run) {
    r.lo <= r.hi < LIMIT32
  }

  function Token(r: Run): string {
    if r.lo == r.hi then Decimal(r.lo) else Decimal(r.lo) + "-" + Decimal(r.hi)
  }

  function ParseToken(t: string): Option<Run> {
    if '-' !in t then
      var v := ParseUint(t);
      if v.None? then None else Some(Run(v.value, v.value))
    else
      var a, b := ParseUint(t[..Index(t, '-')]), ParseUint(t[Index(t, '-') + 1..]);
      if a.None? || b.None? || a.value >= b.value then None else Some(Run(a.value, b.value))
  }

  lemma TokenParses(r: Run)
    requires Fits(r)
    ensures ParseToken(Token(r)) == Some(r)
  {
    DecimalValue(r.lo);
    DecimalValue(r.hi);
    hide Decimal;
    hide Value;
    hide Index;
    var t := Token(r);
    if r.lo == r.hi {
      assert '-' !in t;
    } else {
      var n := |Decimal(r.lo)|;
      assert t[n] == '-' && t[..n] == Decimal(r.lo) && t[n + 1..] == Decimal(r.hi);
      assert '-' !in t[..n];
      FirstIndex(t, '-', n);
    }
  }

  /** No character of a token is a separator or space, and it is not empty. */
  lemma TokenChars(r: Run)
    requires Fits(r)
    ensures Token(r) != "" && forall c <- Token(r) :: IsDigit(c) || c == '-'
  {
    DecimalValue(r.lo);
    DecimalValue(r.hi);
  }

  // ---------------------------------------------------------------------
  // Lists
  // ---------------------------------------------------------------------

  /** unicode.IsSpace. */
  predicate IsSpace(c: char) {
    || '\t' <= c <= '\r' || c == ' ' || c == '\U{85}' || c == '\U{a0}' || c == '\U{1680}'
    || '\U{2000}' <= c <= '\U{200a}' || c == '\U{2028}' || c == '\U{2029}' || c == '\U{202f}' || c == '\U{205f}'
    || c == '\U{3000}'
  }

  function TrimLeft(s: string): string {
    if s != "" && IsSpace(s[0]) then TrimLeft(s[1..]) else s
  }

  function TrimRight(s: string): string {
    if s != "" && IsSpace(s[|s| - 1]) then TrimRight(s[..|s| - 1]) else s
  }

  function TrimSpace(s: string): string {
    TrimRight(TrimLeft(s))
  }

  /** Input after the first newline or NUL is dropped. */
  function Cut(s: string): string {
    if s == "" || s[0] == '\n' || s[0] == '\0' then "" else [s[0]] + Cut(s[1..])
  }

  ghost function Covered(runs: seq<Run>): set<nat> {
    if runs == [] then {}
    else Covered(runs[..|runs| - 1]) + BitWords.Range(runs[|runs| - 1].lo, runs[|runs| - 1].hi + 1)
  }

  function ParseTokens(tokens: seq<string>): Option<seq<Run>> {
    if tokens == [] then Some([])
    else
      var r, rest := ParseToken(TrimSpace(tokens[0])), ParseTokens(tokens[1..]);
      if r.None? || rest.None? then None else Some([r.value] + rest.value)
  }

  /** The tokens of the input. */
  function TokensOf(input: string): seq<string> {
    var s := TrimSpace(Cut(input));
    if s == "" then [] else Split(s, ',')
  }

  /** The runs of a well-formed input, or None if a token is bad. */
  function ParseRuns(input: string): Option<seq<Run>> {
    ParseTokens(TokensOf(input))
  }

  /** The runs of the tokens before the first bad one. */
  function RunsBefore(tokens: seq<string>): seq<Run> {
    if tokens == [] || ParseToken(TrimSpace(tokens[0])).None? then []
    else [ParseToken(TrimSpace(tokens[0])).value] + RunsBefore(tokens[1..])
  }

  lemma {:induction false} ParsesAll(tokens: seq<string>)
    ensures ParseTokens(tokens).Some? <==> |RunsBefore(tokens)| == |tokens|
    ensures ParseTokens(tokens).Some? ==> ParseTokens(tokens).value == RunsBefore(tokens)
    ensures |RunsBefore(tokens)| <= |tokens|
  {
    hide ParseToken;
    hide TrimSpace;
    if tokens != [] { ParsesAll(tokens[1..]); }
  }

  lemma {:induction false} RunAt(tokens: seq<string>, k: nat)
    requires k < |tokens| && k <= |RunsBefore(tokens)|
    ensures ParseToken(TrimSpace(tokens[k])).Some? <==> k < |RunsBefore(tokens)|
    ensures k < |RunsBefore(tokens)| ==> ParseToken(TrimSpace(tokens[k])) == Some(RunsBefore(tokens)[k])
  {
    hide ParseToken;
    hide TrimSpace;
    if k > 0 {
      RunAt(tokens[1..], k - 1);
      assert tokens[1..][k - 1] == tokens[k];
    }
  }

  lemma TokenFits(t: string)
    requires ParseToken(t).Some?
    ensures Fits(ParseToken(t).value)
  {
    hide Value;
    hide Index;
  }

  predicate Plain(s: string) {
    forall c <- s :: IsDigit(c) || c == '-' || c == ','
  }

  lemma {:induction false} PlainCut(s: string)
    requires Plain(s)
    ensures Cut(s) == s && TrimSpace(s) == s
  {
    if s != "" {
      assert s[0] in s && s[|s| - 1] in s;
      PlainTail(s);
      PlainCut(s[1..]);
      assert [s[0]] + s[1..] == s;
    }
  }

  lemma PlainTail(s: string)
    requires Plain(s) && s != ""
    ensures Plain(s[1..]) && !IsSpace(s[0]) && !IsSpace(s[|s| - 1]) && s[0] != '\n' && s[0] != '\0'
  {
    assert s[0] in s && s[|s| - 1] in s;
    forall c <- s[1..]
      ensures c in s
    {
    }
  }

  predicate AllSpace(s: string) {
    forall c <- s :: IsSpace(c)
  }

  lemma {:induction false} TrimmedLeft(a: string, t: string)
    requires AllSpace(a) && (t == "" || !IsSpace(t[0]))
    ensures TrimLeft(a + t) == t
  {
    if a == "" {
      assert a + t == t;
    } else {
      assert a[0] in a && (a + t)[1..] == a[1..] + t;
      TrimmedLeft(a[1..], t);
    }
  }

  lemma {:induction false} TrimmedRight(t: string, b: string)
    requires AllSpace(b) && (t == "" || !IsSpace(t[|t| - 1]))
    ensures TrimRight(t + b) == t
  {
    if b == "" {
      assert t + b == t;
    } else {
      var n := |b| - 1;
      assert b[n] in b && (t + b)[..|t| + n] == t + b[..n];
      TrimmedRight(t, b[..n]);
    }
  }

  /** A token may be surrounded by any spaces. */
  lemma PaddedTokenParses(a: string, r: Run, b: string)
    requires AllSpace(a) && AllSpace(b) && Fits(r)
    ensures ParseToken(TrimSpace(a + Token(r) + b)) == Some(r)
  {
    var t := Token(r);
    TokenChars(r);
    assert t[0] in t && t[|t| - 1] in t;
    assert a + t + b == a + (t + b);
    TrimmedLeft(a, t + b);
    TrimmedRight(t, b);
    TokenParses(r);
  }

  /** What comes after the first newline or zero character does not count. */
  lemma {:induction false} CutAtEnd(s: string, c: char, rest: string)
    requires '\n' !in s && '\0' !in s && (c == '\n' || c == '\0')
    ensures Cut(s + [c] + rest) == s
  {
    if s == "" {
      assert (s + [c] + rest)[0] == c;
    } else {
      assert s[0] in s && (s + [c] + rest)[1..] == s[1..] + [c] + rest;
      CutAtEnd(s[1..], c, rest);
    }
  }

  function Tokens(runs: seq<Run>): (ts: seq<string>)
    ensures |ts| == |runs|
  {
    if runs == [] then [] else [Token(runs[0])] + Tokens(runs[1..])
  }

  ghost predicate AllFit(runs: seq<Run>) {
    forall r <- runs :: Fits(r)
  }

  lemma {:induction false} TokensParse(runs: seq<Run>)
    requires AllFit(runs)
    ensures ParseTokens(Tokens(runs)) == Some(runs)
    ensures forall t <- Tokens(runs) :: ',' !in t && Plain(t) && t != ""
  {
    hide ParseToken;
    hide Token;
    hide TrimSpace;
    if runs != [] {
      TokenParses(runs[0]);
      TokenChars(runs[0]);
      PlainCut(Token(runs[0]));
      TokensParse(runs[1..]);
      assert Tokens(runs)[1..] == Tokens(runs[1..]);
      assert [runs[0]] + runs[1..] == runs;
    }
  }

  lemma {:induction false} JoinPlain(ts: seq<string>)
    requires forall t <- ts :: Plain(t) && t != ""
    ensures Plain(Join(ts, ',')) && (ts != [] ==> Join(ts, ',') != "")
  {
    if |ts| > 1 {
      JoinPlain(ts[1..]);
      PlainConcat(ts[0], [','], Join(ts[1..], ','));
    }
  }

  lemma PlainConcat(a: string, b: string, c: string)
    requires Plain(a) && Plain(b) && Plain(c)
    ensures Plain(a + b + c)
  {
  }

  /** What FormatList writes for some runs, ParseList reads as these runs. */
  lemma ListParses(runs: seq<Run>)
    requires AllFit(runs)
    ensures ParseRuns(Join(Tokens(runs), ',')) == Some(runs)
  {
    TokensParse(runs);
    JoinPlain(Tokens(runs));
    PlainCut(Join(Tokens(runs), ','));
    if runs != [] { SplitJoin(Tokens(runs), ','); }
    assert TokensOf(Join(Tokens(runs), ',')) == Tokens(runs);
  }

  ghost function Elements(s: seq<nat>): set<nat> {
    set i | i in s
  }

  /** A number is missing between one run and the next. */
  ghost predicate Gapped(runs: seq<Run>) {
    forall j | 0 < j < |runs| :: runs[j - 1].hi + 1 < runs[j].lo
  }

  lemma GappedSnoc(runs: seq<Run>, r: Run)
    requires Gapped(runs) && (runs != [] ==> runs[|runs| - 1].hi + 1 < r.lo)
    ensures Gapped(runs + [r])
  {
  }

  /** The runs of an increasing list of numbers, as few as can be: no two of them
      could be one. */
  method Runs(ones: seq<nat>) returns (runs: seq<Run>)
    requires Increasing(ones) && forall i <- ones :: i < LIMIT32
    ensures AllFit(runs) && Gapped(runs) && Covered(runs) == Elements(ones)
  {
    runs := [];
    if ones == [] {
      NothingCovered();
      return;
    }
    hide Tracks;
    hide Covered;
    hide Increasing;
    hide Gapped;
    hide AllFit;
    hide BitWords.Range;
    var runStart: nat, lastVal: nat, inRun := ones[0], ones[0], false;
    var k := 1;
    TracksFirst(ones);
    while k < |ones|
      invariant 1 <= k <= |ones| && lastVal == ones[k - 1]
      invariant Tracks(runs, if inRun then runStart else lastVal, lastVal, ones, k)
    {
      var v: nat, last: nat := ones[k], lastVal;
      Neighbours(ones, k);
      assert v in ones;
      lastVal := v;
      if last + 1 == v {
        TracksRun(runs, if inRun then runStart else last, last, ones, k);
        k := k + 1;
        if !inRun {
          runStart, inRun := last, true;
        }
        continue;
      }
      TracksGap(runs, if inRun then runStart else last, last, ones, k);
      k := k + 1;
      runs := runs + [Run(if inRun then runStart else last, last)];
      inRun := false;
    }
    TracksEnd(runs, if inRun then runStart else lastVal, lastVal, ones);
    runs := runs + [Run(if inRun then runStart else lastVal, lastVal)];
  }

  lemma Neighbours(s: seq<nat>, k: nat)
    requires Increasing(s) && 0 < k < |s|
    ensures s[k - 1] < s[k]
  {
  }

  /** The finished runs and the current one cover the first k numbers, and the
      current one does not touch the finished ones. */
  ghost predicate Tracks(runs: seq<Run>, lo: nat, hi: nat, ones: seq<nat>, k: nat) {
    && AllFit(runs) && Gapped(runs + [Run(lo, hi)]) && Fits(Run(lo, hi))
    && k <= |ones| && Covered(runs) + BitWords.Range(lo, hi + 1) == Elements(ones[..k])
  }

  lemma TracksFirst(ones: seq<nat>)
    requires ones != [] && forall i <- ones :: i < LIMIT32
    ensures Tracks([], ones[0], ones[0], ones, 1)
  {
    NothingCovered();
    FirstElement(ones);
  }

  lemma TracksRun(runs: seq<Run>, lo: nat, hi: nat, ones: seq<nat>, k: nat)
    requires Tracks(runs, lo, hi, ones, k) && k < |ones| && ones[k] == hi + 1 < LIMIT32
    ensures Tracks(runs, lo, hi + 1, ones, k + 1)
  {
    hide Covered;
    hide AllFit;
    NextElement(ones, k);
    RangeSnoc(lo, hi + 1);
    GappedLonger(runs, lo, hi, hi + 1);
    hide Gapped;
  }

  lemma GappedLonger(runs: seq<Run>, lo: nat, hi: nat, hi': nat)
    requires Gapped(runs + [Run(lo, hi)])
    ensures Gapped(runs + [Run(lo, hi')])
  {
    var a, b := runs + [Run(lo, hi)], runs + [Run(lo, hi')];
    forall j | 0 < j < |b|
      ensures b[j - 1].hi + 1 < b[j].lo
    {
      assert a[j - 1].hi + 1 < a[j].lo;
    }
  }

  lemma TracksGap(runs: seq<Run>, lo: nat, hi: nat, ones: seq<nat>, k: nat)
    requires Tracks(runs, lo, hi, ones, k) && k < |ones| && hi + 1 < ones[k] < LIMIT32
    ensures Tracks(runs + [Run(lo, hi)], ones[k], ones[k], ones, k + 1)
  {
    hide Covered;
    NextElement(ones, k);
    CoverOne(runs, Run(lo, hi));
    RangeSnoc(ones[k], ones[k]);
    GappedSnoc(runs + [Run(lo, hi)], Run(ones[k], ones[k]));
    hide Gapped;
  }

  lemma TracksEnd(runs: seq<Run>, lo: nat, hi: nat, ones: seq<nat>)
    requires Tracks(runs, lo, hi, ones, |ones|)
    ensures Covered(runs + [Run(lo, hi)]) == Elements(ones)
    ensures AllFit(runs + [Run(lo, hi)]) && Gapped(runs + [Run(lo, hi)])
  {
    hide Covered;
    hide Gapped;
    CoverOne(runs, Run(lo, hi));
    assert ones[..|ones|] == ones;
  }

  lemma NothingCovered()
    ensures Covered([]) == {}
  {
  }

  lemma FirstElement(s: seq<nat>)
    requires s != []
    ensures Elements(s[..1]) == BitWords.Range(s[0], s[0] + 1) && s[0] in s
  {
  }

  lemma NextElement(s: seq<nat>, k: nat)
    requires k < |s|
    ensures Elements(s[..k + 1]) == Elements(s[..k]) + {s[k]}
  {
    assert s[..k + 1] == s[..k] + [s[k]];
  }

  lemma RangeSnoc(lo: nat, v: nat)
    requires lo <= v
    ensures BitWords.Range(lo, v + 1) == BitWords.Range(lo, v) + {v}
  {
  }

  lemma CoverOne(runs: seq<Run>, r: Run)
    ensures Covered(runs + [r]) == Covered(runs) + BitWords.Range(r.lo, r.hi + 1)
  {
    assert (runs + [r])[..|runs|] == runs;
  }

  /** FormatList: parsing its result gives runs that cover exactly the members
      of the bitmap. */
  method FormatList(b: BitSet) returns (s: string)
    requires b.Valid()
    ensures var runs := ParseRuns(s);
            runs.Some? && AllFit(runs.value) && Gapped(runs.value) && Covered(runs.value) == Members(b.W())
  {
    var ones := b.ToSlice();
    forall i <- ones
      ensures i < LIMIT32
    {
      MembersHas(b.W(), i);
    }
    var rs := Runs(ones);
    ListParses(rs);
    assert Elements(ones) == Members(b.W());
    return Join(Tokens(rs), ',');
  }

  // ---------------------------------------------------------------------
  // No list is shorter
  // ---------------------------------------------------------------------

  lemma {:induction false} CoveredIff(runs: seq<Run>, x: nat)
    ensures x in Covered(runs) <==> exists k | 0 <= k < |runs| :: runs[k].lo <= x <= runs[k].hi
  {
    if runs != [] {
      var n := |runs| - 1;
      CoveredIff(runs[..n], x);
      if k :| 0 <= k < n && runs[..n][k].lo <= x <= runs[..n][k].hi {
        assert runs[k].lo <= x <= runs[k].hi;
      }
      if k :| 0 <= k < |runs| && runs[k].lo <= x <= runs[k].hi {
        if k < n { assert runs[..n][k].lo <= x <= runs[..n][k].hi; }
      }
    }
  }

  lemma {:induction false} RunsInOrder(runs: seq<Run>, i: nat, j: nat)
    requires AllFit(runs) && Gapped(runs) && i < j < |runs|
    ensures runs[i].hi + 1 < runs[j].lo
  {
    assert Fits(runs[j - 1]) && Fits(runs[j]);
    if i + 1 < j {
      RunsInOrder(runs, i, j - 1);
    }
  }

  /** The number after a run is not covered. */
  lemma GapUncovered(runs: seq<Run>, i: nat)
    requires AllFit(runs) && Gapped(runs) && i < |runs|
    ensures runs[i].hi + 1 !in Covered(runs)
  {
    var x := runs[i].hi + 1;
    assert Fits(runs[i]);
    CoveredIff(runs, x);
    if k :| 0 <= k < |runs| && runs[k].lo <= x <= runs[k].hi {
      if k < i { RunsInOrder(runs, k, i); } else if i < k { RunsInOrder(runs, i, k); }
      assert false;
    }
  }

  predicate Has(r: Run, x: nat) {
    r.lo <= x <= r.hi
  }

  /** A run that covers the starts of two gapped runs covers the gap too. */
  lemma OneRunEach(runs: seq<Run>, other: seq<Run>, i: nat, j: nat, k: nat)
    requires AllFit(runs) && Gapped(runs) && Covered(other) == Covered(runs)
    requires i < j < |runs| && k < |other|
    ensures !(Has(other[k], runs[i].lo) && Has(other[k], runs[j].lo))
  {
    if Has(other[k], runs[i].lo) && Has(other[k], runs[j].lo) {
      RunsInOrder(runs, i, j);
      assert Fits(runs[i]);
      var x := runs[i].hi + 1;
      assert other[k].lo <= x <= other[k].hi;
      CoveredIff(other, x);
      GapUncovered(runs, i);
      assert false;
    }
  }

  /** The first j runs need j different runs of any other list for the same numbers. */
  lemma {:induction false} DifferentRuns(runs: seq<Run>, other: seq<Run>, j: nat) returns (ks: set<nat>)
    requires AllFit(runs) && Gapped(runs) && Covered(other) == Covered(runs) && j <= |runs|
    ensures |ks| == j
    ensures forall k <- ks :: k < |other| && exists i | 0 <= i < j :: Has(other[k], runs[i].lo)
  {
    hide Covered;
    hide Gapped;
    hide Has;
    ks := {};
    if j > 0 {
      var before := DifferentRuns(runs, other, j - 1);
      var k := SomeRun(runs, other, j - 1);
      forall i | 0 <= i < j - 1
        ensures !(Has(other[k], runs[i].lo) && Has(other[k], runs[j - 1].lo))
      {
        OneRunEach(runs, other, i, j - 1, k);
      }
      assert k !in before;
      ks := before + {k};
    }
  }

  lemma SomeRun(runs: seq<Run>, other: seq<Run>, i: nat) returns (k: nat)
    requires AllFit(runs) && Covered(other) == Covered(runs) && i < |runs|
    ensures k < |other| && Has(other[k], runs[i].lo)
  {
    assert Fits(runs[i]);
    CoveredIff(runs, runs[i].lo);
    CoveredIff(other, runs[i].lo);
    k :| 0 <= k < |other| && other[k].lo <= runs[i].lo <= other[k].hi;
  }

  lemma {:induction false} RangeSize(s: set<nat>, n: nat)
    requires forall k <- s :: k < n
    ensures |s| <= n
    decreases n
  {
    if s != {} {
      RangeSize(s - {n - 1}, n - 1);
      assert s <= s - {n - 1} + {n - 1};
    }
  }

  /** A gapped list is a shortest list for the numbers it covers. */
  lemma FewestRuns(runs: seq<Run>, other: seq<Run>)
    requires AllFit(runs) && Gapped(runs) && Covered(other) == Covered(runs)
    ensures |runs| <= |other|
  {
    hide Covered;
    var ks := DifferentRuns(runs, other, |runs|);
    RangeSize(ks, |other|);
  }

  // ---------------------------------------------------------------------
  // Adding ranges with a 32-bit counter
  // ---------------------------------------------------------------------

  /** The value of a 32-bit counter n steps after start. */
  function Counter(start: nat, n: nat): nat {
    (start + n) % LIMIT32
  }

  /** The loop that adds a range ends if and only if the range ends below the
      largest 32-bit number: otherwise the counter is never above the end. */
  lemma LoopEndsIff(r: Run)
    requires Fits(r)
    ensures (exists n: nat :: Counter(r.lo, n) > r.hi) <==> r.hi < LIMIT32 - 1
  {
    if r.hi < LIMIT32 - 1 {
      assert Counter(r.lo, r.hi + 1 - r.lo) > r.hi;
    }
  }

  /** Endless: the call does not return. */
  datatype ParseResult = Parsed(bitmap: BitSet) | BadToken | Endless

  /** One of the runs is never done. */
  predicate NeverDone(runs: seq<Run>) {
    exists r <- runs :: r.hi == LIMIT32 - 1
  }

  lemma OneMoreRun(runs: seq<Run>, k: nat)
    requires k < |runs|
    ensures runs[..k + 1] == runs[..k] + [runs[k]]
    ensures NeverDone(runs[..k + 1]) <==> NeverDone(runs[..k]) || runs[k].hi == LIMIT32 - 1
    ensures runs[k].hi == LIMIT32 - 1 ==> NeverDone(runs)
  {
    assert runs[..k + 1] == runs[..k] + [runs[k]];
    assert runs[k] in runs && runs[k] in runs[..k + 1];
    if NeverDone(runs[..k]) {
      var r :| r in runs[..k] && r.hi == LIMIT32 - 1;
      assert r in runs[..k + 1];
    }
  }

  lemma NoRuns()
    ensures !NeverDone([])
  {
  }

  /** Add a range; false if the loop does not end. */
  method AddRange(b: BitSet, r: Run) returns (ends: bool)
    requires b.Valid() && Fits(r)
    modifies b
    ensures b.Valid() && (ends <==> r.hi < LIMIT32 - 1)
    ensures ends ==> Members(b.W()) == old(Members(b.W())) + BitWords.Range(r.lo, r.hi + 1)
  {
    hide Members;
    hide BitWords.Range;
    if r.hi == LIMIT32 - 1 {
      return false;
    }
    var i := r.lo;
    NothingBetween(r.lo);
    while i <= r.hi
      invariant r.lo <= i <= r.hi + 1 && b.Valid()
      invariant Members(b.W()) == old(Members(b.W())) + BitWords.Range(r.lo, i)
    {
      RangeSnoc(r.lo, i);
      b.Add(i);
      i := Counter(i, 1);
    }
    return true;
  }

  lemma NothingBetween(lo: nat)
    ensures BitWords.Range(lo, lo) == {}
  {
  }

  /** Tokens are parsed and added in order. The call returns if and only if no
      token before the first bad one ends at the largest number; it then fails
      exactly on a bad token, and otherwise holds exactly the union. */
  method ParseList(input: string, sizeHint: nat) returns (r: ParseResult)
    requires sizeHint < LIMIT32
    ensures r.Endless? <==> NeverDone(RunsBefore(TokensOf(input)))
    ensures r.BadToken? <==> !r.Endless? && ParseRuns(input).None?
    ensures r.Parsed? ==> r.bitmap.Valid() && Members(r.bitmap.W()) == Covered(ParseRuns(input).value)
  {
    hide Members;
    hide Covered;
    hide BitWords.Range;
    hide ParseToken;
    hide TrimSpace;
    hide RunsBefore;
    hide ParseTokens;
    hide NeverDone;
    var b := new BitSet(sizeHint);
    var tokens := TokensOf(input);
    ghost var runs := RunsBefore(tokens);
    ParsesAll(tokens);
    NothingCovered();
    NoRuns();
    var k := 0;
    while k < |tokens|
      invariant 0 <= k <= |runs| && k <= |tokens| && fresh(b) && b.Valid() && Members(b.W()) == Covered(runs[..k])
      invariant !NeverDone(runs[..k])
    {
      RunAt(tokens, k);
      var run := ParseToken(TrimSpace(tokens[k]));
      if run.None? {
        assert runs[..k] == runs;
        return BadToken;
      }
      TokenFits(TrimSpace(tokens[k]));
      CoverOne(runs[..k], run.value);
      OneMoreRun(runs, k);
      var ends := AddRange(b, run.value);
      if !ends {
        return Endless;
      }
      k := k + 1;
    }
    assert runs[..k] == runs;
    return Parsed(b);
  }

  /** A list that the parser never gets to the end of. */
  method LargestNumberIsEndless() returns (r: ParseResult)
    ensures r == Endless
  {
    var runs := [Run(LIMIT32 - 1, LIMIT32 - 1)];
    ListParses(runs);
    LargestNumber();
    assert Tokens(runs) == ["4294967295"];
    ParsesAll(TokensOf("4294967295"));
    r := ParseList("4294967295", 0);
    assert runs[0] in RunsBefore(TokensOf("4294967295"));
  }

  lemma NextDigit(n: nat, s: string, d: nat)
    requires n > 0 && d < 10 && Decimal(n) == s
    ensures Decimal(10 * n + d) == s + [Digit(d)]
  {
    hide Digit;
  }

  lemma LargestNumber()
    ensures Decimal(LIMIT32 - 1) == "4294967295"
  {
    assert Decimal(4) == "4";
    hide Decimal;
    NextDigit(4, "4", 2);
    NextDigit(42, "42", 9);
    NextDigit(429, "429", 4);
    NextDigit(4294, "4294", 9);
    NextDigit(42949, "42949", 6);
    NextDigit(429496, "429496", 7);
    NextDigit(4294967, "4294967", 2);
    NextDigit(42949672, "42949672", 9);
    NextDigit(429496729, "429496729", 5);
  }

  lemma {:induction false} CoversLargest(runs: seq<Run>)
    requires AllFit(runs)
    ensures NeverDone(runs) <==> LIMIT32 - 1 in Covered(runs)
  {
    if runs != [] {
      var k := |runs| - 1;
      assert runs == runs[..k] + [runs[k]];
      CoverOne(runs[..k], runs[k]);
      CoversLargest(runs[..k]);
      assert Fits(runs[k]);
    }
  }

  /** Formatting and parsing again gives a bitmap with the same members, if and
      only if the largest index is not one of them; otherwise the parser does not
      return. */
  method RoundTrip(b: BitSet, sizeHint: nat) returns (r: ParseResult)
    requires b.Valid() && sizeHint < LIMIT32
    ensures r == Endless <==> LIMIT32 - 1 in Members(b.W())
    ensures r != Endless ==> r.Parsed? && r.bitmap.Valid() && Members(r.bitmap.W()) == Members(b.W())
  {
    hide Members;
    hide Covered;
    hide ParseTokens;
    hide RunsBefore;
    hide NeverDone;
    var s := FormatList(b);
    ParsesAll(TokensOf(s));
    CoversLargest(ParseRuns(s).value);
    r := ParseList(s, sizeHint);
  }
}
