/**
 The string operations of the Rust standard library that the env-file code uses, with the laws about
 them that the proofs need.
 */
module EnvText {

  /** The Unicode property White_Space, which `trim` removes. */
  predicate White(c: char) {
    || '\U{9}' <= c <= '\U{D}' || c == ' ' || c == '\U{85}' || c == '\U{A0}' || c == '\U{1680}'
    || '\U{2000}' <= c <= '\U{200A}' || c == '\U{2028}' || c == '\U{2029}' || c == '\U{202F}'
    || c == '\U{205F}' || c == '\U{3000}'
  }

  lemma WhiteChars(c: char)
    ensures White(c) <==> c as int in {
      0x9, 0xA, 0xB, 0xC, 0xD, 0x20, 0xA0, 0x1680, 0x2000, 0x2001, 0x2002, 0x2003, 0x2004, 0x2005, 0x2006, 0x2007,
      0x2008, 0x2009, 0x200A, 0x2028, 0x2029, 0x202F, 0x205F, 0x3000, 0x85}
  {
  }

  predicate Blank(s: string) {
    forall i :: 0 <= i < |s| ==> White(s[i])
  }

  function TrimStart(s: string): string {
    if s != "" && White(s[0]) then TrimStart(s[1..]) else s
  }

  function TrimEnd(s: string): string {
    if s != "" && White(s[|s| - 1]) then TrimEnd(s[..|s| - 1]) else s
  }

  function Trim(s: string): string {
    TrimEnd(TrimStart(s))
  }

  const EXPORT := "export "

  /** `trim_start_matches("export ")`. */
  function StripExports(s: string): (r: string)
    ensures |r| <= |s| && r == s[|s| - |r|..]
  {
    if EXPORT <= s then StripExports(s[|EXPORT|..]) else s
  }

  /** The first position of `c`, or the length. */
  function IndexOf(s: string, c: char): (n: nat)
    ensures n <= |s| && (n < |s| ==> s[n] == c)
    ensures forall i :: 0 <= i < n ==> s[i] != c
  {
    if s == "" || s[0] == c then 0 else IndexOf(s[1..], c) + 1
  }

  lemma IndexOfNone(s: string, c: char)
    requires c !in s
    ensures IndexOf(s, c) == |s|
  {
  }

  lemma IndexOfAfter(a: string, b: string, c: char)
    requires c !in a && b != "" && b[0] == c
    ensures IndexOf(a + b, c) == |a|
  {
    IndexOfIs(a + b, c, |a|);
  }

  lemma BeforeIndex(s: string, c: char)
    ensures c !in s[..IndexOf(s, c)]
    ensures IndexOf(s, c) == |s| ==> c !in s
  {
  }

  lemma IndexOfIs(s: string, c: char, n: nat)
    requires n < |s| && s[n] == c && forall i :: 0 <= i < n ==> s[i] != c
    ensures IndexOf(s, c) == n
  {
  }

  // ---------------------------------------------------------------------------
  // Trimming
  // ---------------------------------------------------------------------------

  lemma {:induction false} TrimStartPrefix(a: string, b: string)
    requires b != "" && !White(b[0])
    ensures TrimStart(a + b) == TrimStart(a) + b
  {
    if a == "" {
      assert a + b == b;
    } else {
      assert (a + b)[0] == a[0] && (a + b)[1..] == a[1..] + b;
      if White(a[0]) {
        TrimStartPrefix(a[1..], b);
      }
    }
  }

  lemma {:induction false} TrimStartBlank(s: string)
    ensures Blank(s) <==> TrimStart(s) == ""
    ensures TrimStart(s) != "" ==> !White(TrimStart(s)[0])
  {
    if s != "" && White(s[0]) {
      assert s == [s[0]] + s[1..];
      TrimStartBlank(s[1..]);
    }
  }

  lemma {:induction false} TrimEndBlank(s: string)
    ensures Blank(s) <==> TrimEnd(s) == ""
    ensures TrimEnd(s) <= s && (TrimEnd(s) != "" ==> !White(TrimEnd(s)[|TrimEnd(s)| - 1]))
    ensures Blank(s[|TrimEnd(s)|..])
  {
    if s != "" && White(s[|s| - 1]) {
      var t := s[..|s| - 1];
      assert s == t + [s[|s| - 1]];
      TrimEndBlank(t);
      assert s[|TrimEnd(s)|..] == t[|TrimEnd(t)|..] + [s[|s| - 1]];
    }
  }

  lemma {:induction false} TrimEndSuffix(a: string, b: string)
    ensures TrimEnd(a + b) == if Blank(b) then TrimEnd(a) else a + TrimEnd(b)
  {
    if b == "" {
      assert a + b == a;
    } else {
      var c := b[|b| - 1];
      var t := b[..|b| - 1];
      assert b == t + [c];
      assert (a + b)[|a + b| - 1] == c && (a + b)[..|a + b| - 1] == a + t;
      if White(c) {
        TrimEndSuffix(a, t);
      }
    }
  }

  lemma {:induction false} TrimStartWithout(s: string, c: char)
    requires c !in s
    ensures c !in TrimStart(s)
  {
    if s != "" && White(s[0]) {
      TrimStartWithout(s[1..], c);
    }
  }

  /** The two ends can be trimmed in either order. */
  lemma {:induction false} TrimEitherWay(s: string)
    ensures Trim(s) == TrimStart(TrimEnd(s))
  {
    TrimEndBlank(s);
    if s != "" && White(s[0]) {
      TrimEitherWay(s[1..]);
      assert s == [s[0]] + s[1..];
      TrimEndSuffix([s[0]], s[1..]);
      if Blank(s[1..]) {
        TrimEndBlank(s[1..]);
        assert Blank(s);
      } else {
        assert TrimStart([s[0]] + TrimEnd(s[1..])) == TrimStart(TrimEnd(s[1..])) by {
          assert ([s[0]] + TrimEnd(s[1..]))[1..] == TrimEnd(s[1..]);
        }
      }
    }
  }

  lemma TrimEndTwice(s: string)
    ensures Trim(TrimEnd(s)) == Trim(s)
  {
    TrimEitherWay(s);
    TrimEitherWay(TrimEnd(s));
    TrimEndBlank(s);
  }

  lemma TrimStartTwice(s: string)
    ensures Trim(TrimStart(s)) == Trim(s)
  {
    TrimStartBlank(s);
  }

  /** Text that neither begins nor ends with white space is left alone. */
  lemma TrimNothing(s: string)
    requires s != "" && !White(s[0]) && !White(s[|s| - 1])
    ensures TrimStart(s) == s && Trim(s) == s
  {
  }

  // ---------------------------------------------------------------------------
  // Export prefixes
  // ---------------------------------------------------------------------------

  lemma ExportPrefix(a: string, b: string)
    requires b != "" && b[0] == '='
    ensures EXPORT <= a + b <==> EXPORT <= a
  {
    assert (a + b)[|a|] == '=';
  }

  lemma {:induction false} StripExportsPrefix(a: string, b: string)
    requires b != "" && b[0] == '='
    ensures StripExports(a + b) == StripExports(a) + b
  {
    ExportPrefix(a, b);
    if EXPORT <= a {
      assert (a + b)[|EXPORT|..] == a[|EXPORT|..] + b;
      StripExportsPrefix(a[|EXPORT|..], b);
    }
  }

  lemma {:induction false} StripExportsWithout(s: string, c: char)
    requires c !in s
    ensures c !in StripExports(s)
  {
    if EXPORT <= s {
      StripExportsWithout(s[|EXPORT|..], c);
    }
  }

  lemma StripNothing(s: string)
    requires ' ' !in s
    ensures StripExports(s) == s
  {
    assert EXPORT[6] == ' ';
  }

  lemma StripExportsBlank(s: string)
    requires Blank(s)
    ensures StripExports(s) == s
  {
    assert EXPORT[0] == 'e';
  }

  lemma StripOne(t: string)
    ensures StripExports(EXPORT + t) == StripExports(t) && EXPORT <= EXPORT + t
  {
    assert (EXPORT + t)[|EXPORT|..] == t;
  }

  /** Nothing but `export` words before the equals sign. */
  predicate BareExport(s: string) {
    EXPORT <= s && Blank(StripExports(s))
  }

  lemma TrimmedExport()
    ensures TrimEnd(EXPORT) == "export" && StripExports("export") == "export" && Trim("export") == "export"
  {
    assert EXPORT[..|EXPORT| - 1] == "export";
    assert White(EXPORT[|EXPORT| - 1]);
  }

  /**
   Trimming before the `export` prefixes are taken off instead of afterwards makes one difference:
   when nothing follows the prefixes, the last of them loses its space and stays.
   */
  lemma {:induction false} TrimThenStrip(s: string)
    ensures Trim(StripExports(TrimEnd(s))) == if BareExport(s) then "export" else Trim(StripExports(s))
  {
    TrimEndBlank(s);
    TrimEndTwice(s);
    if EXPORT <= s {
      var t := s[|EXPORT|..];
      assert s == EXPORT + t;
      StripOne(t);
      TrimEndSuffix(EXPORT, t);
      if Blank(t) {
        StripExportsBlank(t);
        TrimmedExport();
      } else {
        StripOne(TrimEnd(t));
        TrimThenStrip(t);
      }
    }
  }
}
