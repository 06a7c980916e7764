/**
 Accent colours of Buds (service/src/bud-accent.ts): a Bud without a stored colour gets, in order of
 creation, the first palette colour with the fewest uses.
 */
module AccentColor {
  import opened Wrappers
  import opened Lexicographic

  const PALETTE: seq<string> := [
    "oklch(0.70 0.25 330)", "oklch(0.65 0.24 50)", "oklch(0.68 0.22 190)", "oklch(0.72 0.23 280)", "oklch(0.66 0.21 140)"
  ]

  /** Creation times are in milliseconds. */
  datatype Row = Row(budId: string, accent: Option<string>, createdAt: Option<int>) {
    /** An empty colour counts as none. */
    predicate Coloured() { accent.Some? && accent.value != "" }

    function Own(): multiset<string> { if Coloured() then multiset{accent.value} else multiset{} }

    function Time(): int { if createdAt.Some? then createdAt.value else 0 }
  }

  // ---------------------------------------------------------------------------
  // The next colour
  // ---------------------------------------------------------------------------

  /** The first of the first `i` palette colours that has the fewest uses among them. */
  function Best(taken: multiset<string>, i: nat): (r: nat)
    requires 1 <= i <= |PALETTE|
    ensures r < i && forall j :: 0 <= j < i ==> taken[PALETTE[r]] <= taken[PALETTE[j]]
    ensures forall j :: 0 <= j < r ==> taken[PALETTE[r]] < taken[PALETTE[j]]
  {
    if i == 1 then 0
    else
      var b := Best(taken, i - 1);
      if taken[PALETTE[i - 1]] < taken[PALETTE[b]] then i - 1 else b
  }

  function Next(taken: multiset<string>): (r: string)
    ensures r in PALETTE && forall c :: c in PALETTE ==> taken[r] <= taken[c]
  {
    PALETTE[Best(taken, |PALETTE|)]
  }

  /** The colours in a list, missing and empty ones left out. */
  function Colours(taken: seq<Option<string>>): multiset<string> {
    if taken == [] then multiset{}
    else
      var last := taken[|taken| - 1];
      Colours(taken[..|taken| - 1]) + if last.Some? && last.value != "" then multiset{last.value} else multiset{}
  }

  lemma ColoursStep(taken: seq<Option<string>>, i: nat)
    requires i < |taken|
    ensures Colours(taken[..i + 1])
         == Colours(taken[..i]) + if taken[i].Some? && taken[i].value != "" then multiset{taken[i].value} else multiset{}
  {
    assert taken[..i + 1][..i] == taken[..i];
  }

  method CountColours(taken: seq<Option<string>>) returns (counts: map<string, nat>)
    ensures forall c :: c in counts <==> c in PALETTE
    ensures forall c :: c in counts ==> counts[c] == Colours(taken)[c]
  {
    counts := map c | c in PALETTE :: 0;
    for i := 0 to |taken|
      invariant forall c :: c in counts <==> c in PALETTE
      invariant forall c :: c in counts ==> counts[c] == Colours(taken[..i])[c]
    {
      ColoursStep(taken, i);
      var colour := taken[i];
      if colour.Some? && colour.value != "" && colour.value in counts {
        counts := counts[colour.value := counts[colour.value] + 1];
      }
    }
    assert taken[..|taken|] == taken;
  }

  method PickNextAccentColor(taken: seq<Option<string>>) returns (best: string)
    ensures best == Next(Colours(taken))
  {
    var counts := CountColours(taken);
    best := PALETTE[0];
    var bestCount: Option<nat> := None;    // infinity
    for i := 0 to |PALETTE|
      invariant i > 0 ==> best == PALETTE[Best(Colours(taken), i)] && bestCount == Some(Colours(taken)[best])
      invariant i == 0 ==> bestCount == None
    {
      var count := counts[PALETTE[i]];
      if bestCount.None? || count < bestCount.value {
        best, bestCount := PALETTE[i], Some(count);
      }
    }
  }

  // ---------------------------------------------------------------------------
  // Creation order
  // ---------------------------------------------------------------------------

  predicate Before(a: Row, b: Row) {
    a.Time() < b.Time() || (a.Time() == b.Time() && Below(a.budId, b.budId))
  }

  ghost predicate DistinctIds(rows: seq<Row>) {
    forall i, j :: 0 <= i < j < |rows| ==> rows[i].budId != rows[j].budId
  }

  ghost predicate InOrder(rows: seq<Row>) {
    forall i, j :: 0 <= i < j < |rows| ==> Before(rows[i], rows[j])
  }

  lemma BeforeTotal(a: Row, b: Row)
    ensures a.budId != b.budId ==> Before(a, b) || Before(b, a)
    ensures !(Before(a, b) && Before(b, a))
  {
    Trichotomy(a.budId, b.budId);
  }

  lemma BeforeTransitive(a: Row, b: Row, c: Row)
    requires Before(a, b) && Before(b, c)
    ensures Before(a, c)
  {
    if a.Time() == b.Time() == c.Time() {
      Transitive(a.budId, b.budId, c.budId);
    }
  }

  /** Stable insertion of a row that came earlier in the input. */
  function Insert(row: Row, rows: seq<Row>): (r: seq<Row>)
    ensures multiset(r) == multiset(rows) + multiset{row}
  {
    if rows == [] then [row]
    else if Before(rows[0], row) then
      assert rows == [rows[0]] + rows[1..];
      [rows[0]] + Insert(row, rows[1..])
    else [row] + rows
  }

  function Sort(rows: seq<Row>): (r: seq<Row>)
    ensures multiset(r) == multiset(rows)
  {
    if rows == [] then []
    else
      assert rows == [rows[0]] + rows[1..];
      Insert(rows[0], Sort(rows[1..]))
  }

  lemma InOrderFirst(row: Row, rows: seq<Row>)
    requires InOrder(rows) && forall x :: x in rows ==> Before(row, x)
    ensures InOrder([row] + rows)
  {
  }

  lemma InsertMembers(row: Row, rows: seq<Row>)
    ensures forall x :: x in Insert(row, rows) <==> x == row || x in rows
  {
    forall x ensures x in Insert(row, rows) <==> x == row || x in rows {
      assert x in Insert(row, rows) <==> x in multiset(Insert(row, rows));
      assert x in rows <==> x in multiset(rows);
    }
  }

  lemma {:induction false} InsertInOrder(row: Row, rows: seq<Row>)
    requires InOrder(rows) && forall x :: x in rows ==> x.budId != row.budId
    ensures InOrder(Insert(row, rows))
  {
    if rows != [] {
      var first, rest := rows[0], rows[1..];
      assert first in rows;
      if Before(first, row) {
        InsertInOrder(row, rest);
        InsertMembers(row, rest);
        InOrderFirst(first, Insert(row, rest));
      } else {
        BeforeTotal(first, row);
        forall x | x in rows ensures Before(row, x) {
          if x != first {
            assert Before(first, x);
            BeforeTransitive(row, first, x);
          }
        }
        InOrderFirst(row, rows);
      }
    }
  }

  lemma SortMembers(rows: seq<Row>)
    ensures forall x :: x in Sort(rows) <==> x in rows
  {
    forall x ensures x in Sort(rows) <==> x in rows {
      assert x in Sort(rows) <==> x in multiset(Sort(rows));
      assert x in rows <==> x in multiset(rows);
    }
  }

  lemma {:induction false} SortInOrder(rows: seq<Row>)
    requires DistinctIds(rows)
    ensures InOrder(Sort(rows))
  {
    if rows != [] {
      SortInOrder(rows[1..]);
      SortMembers(rows[1..]);
      InsertInOrder(rows[0], Sort(rows[1..]));
    }
  }

  lemma DistinctFirst(row: Row, rows: seq<Row>)
    requires DistinctIds(rows) && forall x :: x in rows ==> x.budId != row.budId
    ensures DistinctIds([row] + rows)
  {
  }

  lemma {:induction false} InsertDistinct(row: Row, rows: seq<Row>)
    requires DistinctIds(rows) && forall x :: x in rows ==> x.budId != row.budId
    ensures DistinctIds(Insert(row, rows))
  {
    DistinctFirst(row, rows);
    if rows != [] {
      InsertDistinct(row, rows[1..]);
      InsertMembers(row, rows[1..]);
      assert rows[0] in rows;
      DistinctFirst(rows[0], Insert(row, rows[1..]));
    }
  }

  lemma {:induction false} SortDistinct(rows: seq<Row>)
    requires DistinctIds(rows)
    ensures DistinctIds(Sort(rows))
  {
    if rows != [] {
      SortDistinct(rows[1..]);
      SortMembers(rows[1..]);
      InsertDistinct(rows[0], Sort(rows[1..]));
    }
  }

  lemma MultisetTail(rows: seq<Row>)
    requires rows != []
    ensures multiset(rows[1..]) == multiset(rows) - multiset{rows[0]}
  {
    assert rows == [rows[0]] + rows[1..];
  }

  lemma SameFirst(a: seq<Row>, b: seq<Row>)
    requires InOrder(a) && InOrder(b) && multiset(a) == multiset(b) && a != [] && b != []
    ensures a[0] == b[0]
  {
    assert a[0] in multiset(b);
    assert b[0] in multiset(a);
    BeforeTotal(a[0], b[0]);
  }

  /** There is only one way to put rows in order. */
  lemma {:induction false} OrderUnique(a: seq<Row>, b: seq<Row>)
    requires InOrder(a) && InOrder(b) && multiset(a) == multiset(b)
    ensures a == b
  {
    assert |a| == |multiset(a)| == |multiset(b)| == |b|;
    if a != [] {
      SameFirst(a, b);
      MultisetTail(a);
      MultisetTail(b);
      OrderUnique(a[1..], b[1..]);
      assert a == [a[0]] + a[1..] && b == [b[0]] + b[1..];
    }
  }

  // ---------------------------------------------------------------------------
  // Fallback colours
  // ---------------------------------------------------------------------------

  function Accents(rows: seq<Row>): seq<Option<string>> {
    if rows == [] then [] else Accents(rows[..|rows| - 1]) + [rows[|rows| - 1].accent]
  }

  /** The colours of rows that have one. */
  function Stored(rows: seq<Row>): multiset<string> {
    if rows == [] then multiset{}
    else rows[0].Own() + Stored(rows[1..])
  }

  /** Colours for the uncoloured rows, taken in the given order. */
  function Assigned(rows: seq<Row>, taken: multiset<string>): map<string, string>
    decreases rows
  {
    if rows == [] then map[]
    else if rows[0].Coloured() then Assigned(rows[1..], taken)
    else map[rows[0].budId := Next(taken)] + Assigned(rows[1..], taken + multiset{Next(taken)})
  }

  /** The colours so handed out. */
  function Fallbacks(rows: seq<Row>, taken: multiset<string>): multiset<string>
    decreases rows
  {
    if rows == [] then multiset{}
    else if rows[0].Coloured() then Fallbacks(rows[1..], taken)
    else multiset{Next(taken)} + Fallbacks(rows[1..], taken + multiset{Next(taken)})
  }

  function Recoloured(row: Row, chosen: map<string, string>): Row {
    if row.budId in chosen && chosen[row.budId] != "" then row.(accent := Some(chosen[row.budId])) else row
  }

  function Apply(rows: seq<Row>, chosen: map<string, string>): seq<Row> {
    if rows == [] then [] else [Recoloured(rows[0], chosen)] + Apply(rows[1..], chosen)
  }

  function Fallback(rows: seq<Row>): map<string, string> {
    Assigned(Sort(rows), Stored(rows))
  }

  function WithFallback(rows: seq<Row>): seq<Row> {
    Apply(rows, Fallback(rows))
  }

  // ---------------------------------------------------------------------------
  // The order of the input does not matter
  // ---------------------------------------------------------------------------

  lemma {:induction false} StoredConcat(a: seq<Row>, b: seq<Row>)
    ensures Stored(a + b) == Stored(a) + Stored(b)
  {
    if a == [] {
      assert a + b == b;
    } else {
      assert (a + b)[0] == a[0] && (a + b)[1..] == a[1..] + b;
      StoredConcat(a[1..], b);
    }
  }

  lemma StoredFirst(row: Row, rows: seq<Row>)
    ensures Stored([row] + rows) == row.Own() + Stored(rows)
  {
    assert ([row] + rows)[1..] == rows;
  }

  lemma ApplyFirst(row: Row, rows: seq<Row>, chosen: map<string, string>)
    ensures Apply([row] + rows, chosen) == [Recoloured(row, chosen)] + Apply(rows, chosen)
  {
    assert ([row] + rows)[1..] == rows;
  }

  /** Lists that show the same rows and colours. */
  ghost predicate Alike(a: seq<Row>, b: seq<Row>) {
    multiset(a) == multiset(b) && Stored(a) == Stored(b)
  }

  lemma AlikeFirst(x: Row, a: seq<Row>, b: seq<Row>)
    requires Alike(a, b)
    ensures Alike([x] + a, [x] + b)
  {
    StoredFirst(x, a);
    StoredFirst(x, b);
  }

  lemma AlikeSwap(x: Row, y: Row, a: seq<Row>)
    ensures Alike([x] + ([y] + a), [y] + ([x] + a))
  {
    StoredFirst(x, [y] + a);
    StoredFirst(y, [x] + a);
    StoredFirst(x, a);
    StoredFirst(y, a);
  }

  lemma {:induction false} InsertApplied(row: Row, rows: seq<Row>, chosen: map<string, string>)
    ensures Alike(Apply(Insert(row, rows), chosen), [Recoloured(row, chosen)] + Apply(rows, chosen))
  {
    ApplyFirst(row, rows, chosen);
    if rows != [] && Before(rows[0], row) {
      var first, rest := rows[0], rows[1..];
      var x, y := Recoloured(row, chosen), Recoloured(first, chosen);
      assert rows == [first] + rest;
      InsertApplied(row, rest, chosen);
      ApplyFirst(first, Insert(row, rest), chosen);
      ApplyFirst(first, rest, chosen);
      AlikeFirst(y, Apply(Insert(row, rest), chosen), [x] + Apply(rest, chosen));
      AlikeSwap(y, x, Apply(rest, chosen));
    } else {
      assert [row] + [] == [row];
    }
  }

  /** Sorting rows first shows the same rows and colours. */
  lemma {:induction false} SortApplied(rows: seq<Row>, chosen: map<string, string>)
    ensures Alike(Apply(Sort(rows), chosen), Apply(rows, chosen))
  {
    if rows != [] {
      var rest := rows[1..];
      assert rows == [rows[0]] + rest;
      SortApplied(rest, chosen);
      InsertApplied(rows[0], Sort(rest), chosen);
      ApplyFirst(rows[0], rest, chosen);
      AlikeFirst(Recoloured(rows[0], chosen), Apply(Sort(rest), chosen), Apply(rest, chosen));
    }
  }

  lemma {:induction false} ApplyNothing(rows: seq<Row>)
    ensures Apply(rows, map[]) == rows
  {
    if rows != [] {
      ApplyNothing(rows[1..]);
    }
  }

  lemma SortStored(rows: seq<Row>)
    ensures Stored(Sort(rows)) == Stored(rows)
  {
    SortApplied(rows, map[]);
    ApplyNothing(rows);
    ApplyNothing(Sort(rows));
  }

  /** With distinct ids, the colour each Bud falls back to does not depend on the order of the list. */
  lemma OrderIndependent(a: seq<Row>, b: seq<Row>)
    requires DistinctIds(a) && DistinctIds(b) && multiset(a) == multiset(b)
    ensures Fallback(a) == Fallback(b)
    ensures multiset(WithFallback(a)) == multiset(WithFallback(b))
  {
    SortInOrder(a);
    SortInOrder(b);
    OrderUnique(Sort(a), Sort(b));
    SortStored(a);
    SortStored(b);
    SortApplied(a, Fallback(a));
    SortApplied(b, Fallback(a));
  }

  // ---------------------------------------------------------------------------
  // What the list shows
  // ---------------------------------------------------------------------------

  lemma {:induction false} AssignedIds(rows: seq<Row>, taken: multiset<string>, id: string)
    ensures id in Assigned(rows, taken) <==> exists i :: 0 <= i < |rows| && rows[i].budId == id && !rows[i].Coloured()
    ensures id in Assigned(rows, taken) ==> Assigned(rows, taken)[id] in PALETTE
    decreases rows
  {
    if rows != [] {
      assert rows == [rows[0]] + rows[1..];
      AssignedIds(rows[1..], if rows[0].Coloured() then taken else taken + multiset{Next(taken)}, id);
    }
  }

  lemma PaletteNonempty(c: string)
    requires c in PALETTE
    ensures c != ""
  {
  }

  lemma {:induction false} ApplyAt(rows: seq<Row>, chosen: map<string, string>, i: nat)
    requires i < |rows|
    ensures |Apply(rows, chosen)| == |rows| && Apply(rows, chosen)[i] == Recoloured(rows[i], chosen)
  {
    if |rows| > 1 {
      ApplyAt(rows[1..], chosen, if i == 0 then 0 else i - 1);
    }
  }

  /** Stored colours are kept, and every other Bud gets a palette colour; nothing else changes. */
  lemma PersistedKept(rows: seq<Row>, i: nat)
    requires DistinctIds(rows) && i < |rows|
    ensures |WithFallback(rows)| == |rows|
    ensures rows[i].Coloured() ==> WithFallback(rows)[i] == rows[i]
    ensures !rows[i].Coloured() ==>
      rows[i].budId in Fallback(rows) && Fallback(rows)[rows[i].budId] in PALETTE
      && WithFallback(rows)[i] == rows[i].(accent := Some(Fallback(rows)[rows[i].budId]))
  {
    ApplyAt(rows, Fallback(rows), i);
    AssignedIds(Sort(rows), Stored(rows), rows[i].budId);
    SortMembers(rows);
    if rows[i].Coloured() {
      forall k | 0 <= k < |Sort(rows)| && Sort(rows)[k].budId == rows[i].budId ensures Sort(rows)[k] == rows[i] {
        assert Sort(rows)[k] in rows;
      }
    } else {
      assert rows[i] in Sort(rows);
      PaletteNonempty(Fallback(rows)[rows[i].budId]);
    }
  }

  lemma {:induction false} ApplyAgrees(rows: seq<Row>, a: map<string, string>, b: map<string, string>)
    requires forall x :: x in rows ==> Recoloured(x, a) == Recoloured(x, b)
    ensures Apply(rows, a) == Apply(rows, b)
  {
    if rows != [] {
      assert rows[0] in rows;
      ApplyAgrees(rows[1..], a, b);
    }
  }

  /** What an uncoloured row in front of others gets, and that the others are not affected by it. */
  lemma FirstChosen(row: Row, rest: seq<Row>, c: string, later: map<string, string>)
    requires c != "" && row.budId !in later && forall x :: x in rest ==> x.budId != row.budId
    ensures Recoloured(row, map[row.budId := c] + later).Own() == multiset{c}
    ensures Apply(rest, map[row.budId := c] + later) == Apply(rest, later)
  {
    ApplyAgrees(rest, map[row.budId := c] + later, later);
  }

  lemma StoredAppliedFirst(row: Row, rest: seq<Row>, taken: multiset<string>)
    requires !row.Coloured() && forall x :: x in rest ==> x.budId != row.budId
    ensures var taken' := taken + multiset{Next(taken)};
      Stored(Apply([row] + rest, Assigned([row] + rest, taken)))
      == multiset{Next(taken)} + Stored(Apply(rest, Assigned(rest, taken')))
  {
    var rows, c := [row] + rest, Next(taken);
    var later := Assigned(rest, taken + multiset{c});
    assert rows[1..] == rest;
    assert Assigned(rows, taken) == map[row.budId := c] + later;
    AssignedIds(rest, taken + multiset{c}, row.budId);
    PaletteNonempty(c);
    FirstChosen(row, rest, c, later);
    ApplyFirst(row, rest, map[row.budId := c] + later);
    StoredFirst(Recoloured(row, map[row.budId := c] + later), Apply(rest, later));
  }

  lemma StoredAppliedKept(row: Row, rest: seq<Row>, taken: multiset<string>)
    requires row.Coloured() && forall x :: x in rest ==> x.budId != row.budId
    ensures Stored(Apply([row] + rest, Assigned([row] + rest, taken)))
         == row.Own() + Stored(Apply(rest, Assigned(rest, taken)))
  {
    var later := Assigned(rest, taken);
    assert ([row] + rest)[1..] == rest;
    AssignedIds(rest, taken, row.budId);
    ApplyFirst(row, rest, later);
    StoredFirst(row, Apply(rest, later));
  }

  /** The colours shown are those stored and those handed out. */
  lemma {:induction false} StoredApplied(rows: seq<Row>, taken: multiset<string>)
    requires DistinctIds(rows)
    ensures Stored(Apply(rows, Assigned(rows, taken))) == Stored(rows) + Fallbacks(rows, taken)
    decreases rows
  {
    if rows != [] {
      var row, rest := rows[0], rows[1..];
      assert rows == [row] + rest;
      if row.Coloured() {
        StoredApplied(rest, taken);
        StoredAppliedKept(row, rest, taken);
      } else {
        StoredApplied(rest, taken + multiset{Next(taken)});
        StoredAppliedFirst(row, rest, taken);
      }
    }
  }

  /** Claim-time assignment of a new Bud. */
  function AssignBudAccentColor(others: seq<Row>): string {
    Next(Stored(WithFallback(others)))
  }

  lemma StoredShown(rows: seq<Row>)
    requires DistinctIds(rows)
    ensures Stored(WithFallback(rows)) == Stored(rows) + Fallbacks(Sort(rows), Stored(rows))
  {
    var sorted := Sort(rows);
    SortDistinct(rows);
    StoredApplied(sorted, Stored(rows));
    SortStored(rows);
    SortApplied(rows, Fallback(rows));
  }

  lemma MapUpdateLast(a: map<string, string>, b: map<string, string>, k: string, v: string)
    ensures a + b[k := v] == (a + b)[k := v]
  {
  }

  /** The last Bud in order gets the colour that is next after all others have theirs. */
  lemma {:induction false} AssignedLast(rows: seq<Row>, row: Row, taken: multiset<string>)
    requires !row.Coloured()
    ensures Assigned(rows + [row], taken) == Assigned(rows, taken)[row.budId := Next(taken + Fallbacks(rows, taken))]
    decreases rows
  {
    var all := rows + [row];
    if rows == [] {
      assert all == [row] && all[1..] == [];
      assert taken + Fallbacks(rows, taken) == taken;
    } else {
      assert all[0] == rows[0] && all[1..] == rows[1..] + [row];
      if rows[0].Coloured() {
        AssignedLast(rows[1..], row, taken);
      } else {
        var c := Next(taken);
        var taken' := taken + multiset{c};
        AssignedLast(rows[1..], row, taken');
        assert taken' + Fallbacks(rows[1..], taken') == taken + Fallbacks(rows, taken);
        MapUpdateLast(map[rows[0].budId := c], Assigned(rows[1..], taken'), row.budId, Next(taken + Fallbacks(rows, taken)));
      }
    }
  }

  lemma SortLast(others: seq<Row>, row: Row)
    requires DistinctIds(others + [row]) && forall x :: x in others ==> Before(x, row)
    ensures DistinctIds(others) && Sort(others + [row]) == Sort(others) + [row]
  {
    var all, sorted := others + [row], Sort(others);
    assert forall i :: 0 <= i < |others| ==> all[i] == others[i];
    SortInOrder(others);
    SortMembers(others);
    SortInOrder(all);
    assert InOrder(sorted + [row]);
    assert multiset(sorted + [row]) == multiset(all);
    OrderUnique(sorted + [row], Sort(all));
  }

  /**
   The colour stored when a Bud is claimed is the one that the list would show for it as the last
   Bud created, and the other Buds are shown as before.
   */
  lemma ClaimMatchesList(others: seq<Row>, row: Row)
    requires DistinctIds(others + [row]) && !row.Coloured()
    requires forall x :: x in others ==> Before(x, row)
    ensures Fallback(others + [row]) == Fallback(others)[row.budId := AssignBudAccentColor(others)]
  {
    SortLast(others, row);
    StoredLast(others, row);
    AssignedLast(Sort(others), row, Stored(others));
    StoredShown(others);
  }

  /** In terms of times: the others were all created before, a missing time counting as 0. */
  lemma ClaimLatest(others: seq<Row>, row: Row)
    requires DistinctIds(others + [row]) && !row.Coloured()
    requires forall x :: x in others ==>
      (match x.createdAt case Some(t) => t case None => 0) < (match row.createdAt case Some(t) => t case None => 0)
    ensures Fallback(others + [row]) == Fallback(others)[row.budId := AssignBudAccentColor(others)]
  {
    ClaimMatchesList(others, row);
  }

  /** A colour that is handed out ends at most one use above the least used palette colour. */
  lemma {:induction false} FallbacksBalanced(rows: seq<Row>, taken: multiset<string>, c: string, d: string)
    requires c in Fallbacks(rows, taken) && d in PALETTE
    ensures (taken + Fallbacks(rows, taken))[c] <= (taken + Fallbacks(rows, taken))[d] + 1
    decreases rows
  {
    if rows[0].Coloured() {
      FallbacksBalanced(rows[1..], taken, c, d);
    } else {
      var taken' := taken + multiset{Next(taken)};
      assert taken' + Fallbacks(rows[1..], taken') == taken + Fallbacks(rows, taken);
      if c in Fallbacks(rows[1..], taken') {
        FallbacksBalanced(rows[1..], taken', c, d);
      }
    }
  }

  lemma Balanced(rows: seq<Row>, c: string, d: string)
    requires DistinctIds(rows) && c in Fallback(rows).Values && d in PALETTE
    ensures Stored(WithFallback(rows))[c] <= Stored(WithFallback(rows))[d] + 1
  {
    StoredShown(rows);
    AssignedValues(Sort(rows), Stored(rows), c);
    FallbacksBalanced(Sort(rows), Stored(rows), c, d);
  }

  lemma {:induction false} AssignedValues(rows: seq<Row>, taken: multiset<string>, c: string)
    requires c in Assigned(rows, taken).Values
    ensures c in Fallbacks(rows, taken)
    decreases rows
  {
    if rows[0].Coloured() {
      AssignedValues(rows[1..], taken, c);
    } else if c != Next(taken) {
      AssignedValues(rows[1..], taken + multiset{Next(taken)}, c);
    }
  }

  // ---------------------------------------------------------------------------
  // The loops
  // ---------------------------------------------------------------------------

  lemma ColoursSnoc(taken: seq<Option<string>>, c: string)
    requires c != ""
    ensures Colours(taken + [Some(c)]) == Colours(taken) + multiset{c}
  {
    assert (taken + [Some(c)])[..|taken|] == taken;
  }

  lemma StoredLast(rows: seq<Row>, row: Row)
    ensures Stored(rows + [row]) == Stored(rows) + row.Own()
    ensures !row.Coloured() ==> Stored(rows + [row]) == Stored(rows)
  {
    StoredConcat(rows, [row]);
    StoredFirst(row, []);
    assert [row] + [] == [row];
  }

  lemma ColoursLast(taken: seq<Option<string>>, row: Row)
    ensures Colours(taken + [row.accent]) == Colours(taken) + row.Own()
  {
    assert (taken + [row.accent])[..|taken|] == taken;
  }

  lemma {:induction false} StoredColours(rows: seq<Row>)
    ensures Colours(Accents(rows)) == Stored(rows)
  {
    if rows != [] {
      var before, last := rows[..|rows| - 1], rows[|rows| - 1];
      assert rows == before + [last];
      StoredColours(before);
      StoredLast(before, last);
      ColoursLast(Accents(before), last);
    }
  }

  lemma ChooseStep(sorted: seq<Row>, i: nat, taken: seq<Option<string>>, chosen: map<string, string>)
    requires i < |sorted|
    ensures sorted[i].Coloured() ==> Assigned(sorted[i..], Colours(taken)) == Assigned(sorted[i + 1..], Colours(taken))
    ensures !sorted[i].Coloured() ==>
      chosen + Assigned(sorted[i..], Colours(taken)) ==
      chosen[sorted[i].budId := Next(Colours(taken))]
      + Assigned(sorted[i + 1..], Colours(taken + [Some(Next(Colours(taken)))]))
  {
    assert sorted[i..][0] == sorted[i] && sorted[i..][1..] == sorted[i + 1..];
    PaletteNonempty(Next(Colours(taken)));
    ColoursSnoc(taken, Next(Colours(taken)));
  }

  method ChooseFallbacks(sorted: seq<Row>, accents: seq<Option<string>>) returns (chosen: map<string, string>)
    ensures chosen == Assigned(sorted, Colours(accents))
  {
    chosen := map[];
    var taken := accents;
    assert sorted[0..] == sorted;
    for i := 0 to |sorted|
      invariant chosen + Assigned(sorted[i..], Colours(taken)) == Assigned(sorted, Colours(accents))
    {
      ChooseStep(sorted, i, taken, chosen);
      if !sorted[i].Coloured() {
        var colour := PickNextAccentColor(taken);
        taken := taken + [Some(colour)];
        chosen := chosen[sorted[i].budId := colour];
      }
    }
  }

  lemma ApplyStep(rows: seq<Row>, i: nat, chosen: map<string, string>, shown: seq<Row>)
    requires i < |rows|
    ensures shown + Apply(rows[i..], chosen) == (shown + [Recoloured(rows[i], chosen)]) + Apply(rows[i + 1..], chosen)
  {
    assert rows[i..] == [rows[i]] + rows[i + 1..];
    ApplyFirst(rows[i], rows[i + 1..], chosen);
  }

  method ShowColours(rows: seq<Row>, chosen: map<string, string>) returns (shown: seq<Row>)
    ensures shown == Apply(rows, chosen)
  {
    shown := [];
    assert rows[0..] == rows;
    for i := 0 to |rows|
      invariant shown + Apply(rows[i..], chosen) == Apply(rows, chosen)
    {
      ApplyStep(rows, i, chosen, shown);
      shown := shown + [Recoloured(rows[i], chosen)];
    }
  }

  method WithFallbackAccentColors(buds: seq<Row>) returns (shown: seq<Row>)
    ensures shown == WithFallback(buds)
  {
    StoredColours(buds);
    var chosen := ChooseFallbacks(Sort(buds), Accents(buds));
    shown := ShowColours(buds, chosen);
  }
}
