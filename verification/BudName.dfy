/**
 Display names of Buds (service/src/bud-name.ts): a requested name is given a numbered suffix when
 another Bud of the owner has it, and a Bud that reconnects keeps the name it was given.
 */
module BudName {
  import opened Wrappers
  import opened Collections

  const MAX_LENGTH: nat := 120

  // ---------------------------------------------------------------------------
  // Text
  // ---------------------------------------------------------------------------

  /** A UTF-16 code unit, which is what JavaScript counts and cuts a text by. */
  newtype Unit = u: int | 0 <= u < 0x1_0000
  type Text = seq<Unit>

  const DASH: Text := [0x2D]
  const BUD: Text := [0x62, 0x75, 0x64]    // "bud"

  /** The white space that JavaScript's `trim` removes. */
  predicate White(c: Unit) {
    || 0x9 <= c <= 0xD || c == 0x20 || c == 0xA0 || c == 0x1680 || 0x2000 <= c <= 0x200A
    || c == 0x2028 || c == 0x2029 || c == 0x202F || c == 0x205F || c == 0x3000 || c == 0xFEFF
  }

  lemma WhiteUnits(c: Unit)
    ensures White(c) <==> c in {
      0x9, 0xA, 0xB, 0xC, 0xD, 0x20, 0xA0, 0x1680, 0x2000, 0x2001, 0x2002, 0x2003, 0x2004, 0x2005, 0x2006, 0x2007,
      0x2008, 0x2009, 0x200A, 0x2028, 0x2029, 0x202F, 0x205F, 0x3000, 0xFEFF}
  {
  }

  function Trim(s: Text): Text {
    if s == [] then []
    else if White(s[0]) then Trim(s[1..])
    else if White(s[|s| - 1]) then Trim(s[..|s| - 1])
    else s
  }

  /** `slice(0, end)`: a negative end counts from the back. */
  function SliceTo(s: Text, end: int): (r: Text)
    ensures r <= s && (0 <= end ==> |r| <= end)
  {
    if end >= |s| then s
    else if end >= 0 then s[..end]
    else if |s| + end > 0 then s[..|s| + end]
    else []
  }

  predicate Digit(c: Unit) { 0x30 <= c <= 0x39 }

  predicate Digits(s: Text) {
    forall i :: 0 <= i < |s| ==> Digit(s[i])
  }

  function DigitOf(d: nat): (c: Unit)
    requires d < 10
    ensures Digit(c)
  {
    0x30 + d as Unit
  }

  function Decimal(n: nat): (r: Text)
    ensures r != [] && Digits(r)
  {
    (if n < 10 then [] else Decimal(n / 10)) + [DigitOf(n % 10)]
  }

  lemma DecimalParts(n: nat)
    ensures var s := Decimal(n);
      s[|s| - 1] == DigitOf(n % 10) && s[..|s| - 1] == if n < 10 then [] else Decimal(n / 10)
  {
  }

  lemma DigitsDiffer(i: nat, j: nat)
    requires i < 10 && j < 10 && DigitOf(i) == DigitOf(j)
    ensures i == j
  {
  }

  lemma {:induction false} DecimalInjective(m: nat, n: nat)
    requires Decimal(m) == Decimal(n)
    ensures m == n
  {
    DecimalParts(m);
    DecimalParts(n);
    DigitsDiffer(m % 10, n % 10);
    if m >= 10 && n >= 10 {
      DecimalInjective(m / 10, n / 10);
    }
  }

  /** The number that digits stand for. */
  function Value(s: Text): nat
    requires Digits(s)
  {
    if s == [] then 0 else 10 * Value(s[..|s| - 1]) + (s[|s| - 1] - 0x30) as nat
  }

  /** A number is written in decimal, without leading zeros. */
  lemma {:induction false} DecimalValue(n: nat)
    ensures Value(Decimal(n)) == n && (n > 0 ==> Decimal(n)[0] != 0x30)
  {
    DecimalParts(n);
    if n >= 10 {
      DecimalValue(n / 10);
    }
  }

  function Pow10(k: nat): nat {
    if k == 0 then 1 else 10 * Pow10(k - 1)
  }

  lemma {:induction false} DecimalLength(n: nat, k: nat)
    requires k > 0
    ensures |Decimal(n)| <= k <==> n < Pow10(k)
  {
    assert Pow10(k) == 10 * Pow10(k - 1);
    if k == 1 {
      assert Pow10(0) == 1;
    } else if n >= 10 {
      DecimalLength(n / 10, k - 1);
    } else {
      Pow10Positive(k - 1);
    }
  }

  lemma Pow10Positive(k: nat)
    ensures Pow10(k) >= 1
  {
  }

  // ---------------------------------------------------------------------------
  // Candidates
  // ---------------------------------------------------------------------------

  function Base(requested: Text): (r: Text)
    ensures r != [] && |r| <= 120
  {
    SliceTo(if Trim(requested) == [] then BUD else Trim(requested), MAX_LENGTH)
  }

  function Suffix(n: nat): Text {
    DASH + Decimal(n)
  }

  function Candidate(base: Text, n: nat): Text {
    SliceTo(base, MAX_LENGTH - |Suffix(n)|) + Suffix(n)
  }

  predicate IsSuffixedVariant(name: Text, base: Text) {
    base + DASH <= name && |name| > |base| + 1 && Digits(name[|base| + 1..])
  }

  lemma DashAt(s: Text, a: Text, x: Text, i: nat)
    requires s == a + DASH + x && Digits(x) && i < |s| && s[i] == DASH[0]
    ensures i <= |a|
  {
    assert forall k :: |a| < k < |s| ==> s[k] == x[k - |a| - 1];
  }

  predicate AllWhite(s: Text) {
    forall i :: 0 <= i < |s| ==> White(s[i])
  }

  /** White space at both ends goes. */
  lemma {:induction false} TrimMeans(a: Text, t: Text, b: Text)
    requires AllWhite(a) && AllWhite(b) && (t != [] ==> !White(t[0]) && !White(t[|t| - 1]))
    ensures Trim(a + t + b) == t
    decreases |a| + |b|
  {
    var s := a + t + b;
    if a != [] {
      assert s[0] == a[0] && s[1..] == a[1..] + t + b;
      TrimMeans(a[1..], t, b);
    } else if t == [] && b != [] {
      assert s[0] == b[0] && s[1..] == [] + t + b[1..];
      TrimMeans([], t, b[1..]);
    } else if b != [] {
      assert s[0] == t[0] && s[|s| - 1] == b[|b| - 1] && s[..|s| - 1] == [] + t + b[..|b| - 1];
      TrimMeans([], t, b[..|b| - 1]);
    } else {
      assert s == t;
    }
  }

  /** The base is the requested name without white space around it, cut to 120 units, or "bud". */
  lemma BaseMeans(a: Text, t: Text, b: Text)
    requires AllWhite(a) && AllWhite(b) && (t != [] ==> !White(t[0]) && !White(t[|t| - 1]))
    ensures Base(a + t + b) == if t == [] then [0x62, 0x75, 0x64] else if |t| <= 120 then t else t[..120]
  {
    TrimMeans(a, t, b);
  }

  /** A variant is the base, a dash and at least one digit. */
  lemma VariantMeans(name: Text, base: Text)
    ensures IsSuffixedVariant(name, base) <==> exists d :: name == base + [0x2D] + d && d != [] && Digits(d)
  {
    if IsSuffixedVariant(name, base) {
      assert name == base + [0x2D] + name[|base| + 1..];
    }
    if d :| name == base + [0x2D] + d && d != [] && Digits(d) {
      assert name[..|base| + 1] == base + [0x2D] && name[|base| + 1..] == d;
    }
  }

  /** A text followed by a dash and digits splits at its last dash only. */
  lemma SplitAtDash(a: Text, b: Text, x: Text, y: Text)
    requires a + DASH + x == b + DASH + y && Digits(x) && Digits(y)
    ensures a == b && x == y
  {
    var s := a + DASH + x;
    assert s[|a|] == DASH[0] && s[|b|] == DASH[0];
    DashAt(s, a, x, |b|);
    DashAt(s, b, y, |a|);
    assert s[..|a|] == a && s[..|b|] == b && s[|a| + 1..] == x && s[|b| + 1..] == y;
  }

  /** Candidates with different numbers differ, however much of the base is cut off. */
  lemma CandidatesDistinct(base: Text, m: nat, n: nat)
    requires Candidate(base, m) == Candidate(base, n)
    ensures m == n
  {
    var a, b := SliceTo(base, MAX_LENGTH - |Suffix(m)|), SliceTo(base, MAX_LENGTH - |Suffix(n)|);
    assert a + DASH + Decimal(m) == a + Suffix(m) && b + DASH + Decimal(n) == b + Suffix(n);
    SplitAtDash(a, b, Decimal(m), Decimal(n));
    DecimalInjective(m, n);
  }

  /** A candidate is recognised as a variant of the base exactly when nothing was cut off. */
  lemma VariantIffFits(base: Text, n: nat)
    requires base != []
    ensures IsSuffixedVariant(Candidate(base, n), base) <==> |base| + |Suffix(n)| <= 120
  {
    var name := Candidate(base, n);
    var a := SliceTo(base, MAX_LENGTH - |Suffix(n)|);
    assert name == a + DASH + Decimal(n);
    if |base| + |Suffix(n)| <= 120 {
      assert name[..|base| + 1] == base + DASH && name[|base| + 1..] == Decimal(n);
    } else if IsSuffixedVariant(name, base) {
      assert name == base + DASH + name[|base| + 1..];
      SplitAtDash(a, base, Decimal(n), name[|base| + 1..]);
      assert false;
    }
  }

  lemma CandidateLength(base: Text, n: nat)
    ensures |Candidate(base, n)| <= 120 <==> n < Pow10(119)
  {
    DecimalLength(n, 119);
  }

  // ---------------------------------------------------------------------------
  // Picking a name
  // ---------------------------------------------------------------------------

  predicate Keeps(base: Text, taken: set<Text>, current: Option<Text>) {
    && current.Some? && current.value != [] && current.value !in taken
    && (current.value == base || IsSuffixedVariant(current.value, base))
  }

  /** `n` is the least number, from two on, whose candidate is free. */
  ghost predicate LeastFree(base: Text, taken: set<Text>, n: nat) {
    n >= 2 && Candidate(base, n) !in taken && AllTaken(base, taken, n)
  }

  ghost predicate AllTaken(base: Text, taken: set<Text>, n: nat) {
    forall k: nat :: 2 <= k < n ==> Candidate(base, k) in taken
  }

  /** The name that a Bud is to have. */
  ghost predicate Picked(base: Text, taken: set<Text>, current: Option<Text>, name: Text) {
    if Keeps(base, taken, current) then name == current.value
    else if base !in taken then name == base
    else exists n: nat :: LeastFree(base, taken, n) && name == Candidate(base, n)
  }

  /** The candidates with numbers below `n`. */
  ghost function Tried(base: Text, n: nat): set<Text> {
    if n <= 2 then {} else Tried(base, n - 1) + {Candidate(base, n - 1)}
  }

  lemma {:induction false} NotTriedYet(base: Text, n: nat, m: nat)
    requires n <= m
    ensures Candidate(base, m) !in Tried(base, n)
  {
    if n > 2 {
      NotTriedYet(base, n - 1, m);
      if Candidate(base, m) == Candidate(base, n - 1) {
        CandidatesDistinct(base, m, n - 1);
        assert false;
      }
    }
  }

  /** As they are all different, there are as many of them as numbers. */
  lemma {:induction false} TriedCount(base: Text, n: nat)
    requires n >= 2
    ensures |Tried(base, n)| == n - 2
  {
    if n > 2 {
      TriedCount(base, n - 1);
      NotTriedYet(base, n - 1, n - 1);
    }
  }

  lemma TriedBound(base: Text, n: nat, taken: set<Text>)
    requires n >= 2 && Tried(base, n) <= taken
    ensures n - 2 <= |taken|
  {
    TriedCount(base, n);
    SubsetSize(Tried(base, n), taken);
  }

  ghost predicate Found(base: Text, taken: set<Text>, name: Text, n: nat) {
    LeastFree(base, taken, n) && name == Candidate(base, n) && n <= |taken| + 2
  }

  /** The search ends for every finite set of taken names, after at most one candidate for each. */
  method SearchName(base: Text, taken: set<Text>) returns (name: Text)
    ensures exists n: nat :: Found(base, taken, name, n)
  {
    var n := 2;
    while true
      invariant n >= 2 && Tried(base, n) <= taken && AllTaken(base, taken, n)
      decreases |taken| + 2 - n
    {
      TriedBound(base, n, taken);
      name := Candidate(base, n);
      if name !in taken {
        assert Found(base, taken, name, n);
        return;
      }
      TriedBound(base, n + 1, taken);
      n := n + 1;
    }
  }

  method PickBudName(requested: Text, taken: set<Text>, current: Option<Text>) returns (name: Text)
    ensures Picked(Base(requested), taken, current, name)
    ensures name !in taken && name != []
    ensures !Keeps(Base(requested), taken, current) && |taken| + 2 < Pow10(119) ==> |name| <= 120
  {
    var base := Base(requested);
    if Keeps(base, taken, current) {
      return current.value;
    }
    if base !in taken {
      return base;
    }
    name := SearchName(base, taken);
    ghost var n: nat :| Found(base, taken, name, n);
    CandidateLength(base, n);
  }

  /** The rule determines the name. */
  lemma PickedUnique(base: Text, taken: set<Text>, current: Option<Text>, a: Text, b: Text)
    requires Picked(base, taken, current, a) && Picked(base, taken, current, b)
    ensures a == b
  {
    if !Keeps(base, taken, current) && base in taken {
      var m: nat :| LeastFree(base, taken, m) && a == Candidate(base, m);
      var n: nat :| LeastFree(base, taken, n) && b == Candidate(base, n);
      LeastFreeUnique(base, taken, m, n);
    }
  }

  lemma LeastFreeUnique(base: Text, taken: set<Text>, m: nat, n: nat)
    requires LeastFree(base, taken, m) && LeastFree(base, taken, n)
    ensures m == n
  {
  }

  /** The names that a Bud is sure to keep. */
  predicate Recognised(name: Text, base: Text) {
    name == base || IsSuffixedVariant(name, base)
  }

  /**
   A Bud that reconnects with the same requested name keeps its name as long as nobody else has
   taken it, whatever else happened to the other names, exactly when the name is recognised.
   */
  lemma KeptOnReconnect(base: Text, name: Text)
    requires base != [] && name != []
    ensures Recognised(name, base) <==> forall later: set<Text> :: name !in later ==> Picked(base, later, Some(name), name)
  {
    if !Recognised(name, base) {
      var later: set<Text> := {};
      assert name !in later && !Picked(base, later, Some(name), name);
    }
  }

  /** A name with a new suffix is recognised on reconnecting exactly when base and suffix fit together. */
  lemma NewNameKept(base: Text, taken: set<Text>, n: nat)
    requires base != [] && base in taken && LeastFree(base, taken, n)
    ensures Recognised(Candidate(base, n), base) <==> |base| + |Suffix(n)| <= 120
  {
    VariantIffFits(base, n);
  }

  /** Suffixes of one digit. */
  lemma ShortSuffix(n: nat)
    requires n < 10
    ensures |Suffix(n)| == 2
  {
  }

  /**
   Every base that leaves no room for a suffix shows the failure: with the base taken, the number is
   2 (or 3, if the base is itself what the number 2 would give), and once the base is free again the
   name so given is not kept but gives way to the base.
   */
  lemma LongNameLost(base: Text) returns (n: nat)
    requires 119 <= |base| <= 120
    ensures n == (if Candidate(base, 2) == base then 3 else 2) && LeastFree(base, {base}, n)
    ensures Picked(base, {base}, None, Candidate(base, n))
    ensures Picked(base, {}, Some(Candidate(base, n)), base) && base != Candidate(base, n)
    ensures !Picked(base, {}, Some(Candidate(base, n)), Candidate(base, n))
  {
    n := if Candidate(base, 2) == base then 3 else 2;
    if n == 3 && Candidate(base, 3) == base {
      CandidatesDistinct(base, 2, 3);
      assert false;
    }
    assert LeastFree(base, {base}, n);
    ShortSuffix(n);
    VariantIffFits(base, n);
  }
}
