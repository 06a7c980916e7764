/**
 Popup ownership in the managed browser (bud/src/browser/adapter.rs, `targets`): a page opened by
 an owned target belongs to the same workspace, transitively.  The program finds these pages by
 sweeping over the target list, at most as many times as there are targets.
 */
module TargetOwnership {
  import opened Wrappers
  import opened Collections

  type Id = string
  type Workspace = string
  type Owners = map<Id, Workspace>

  /** One entry of the browser's target list; the id is absent when it is not a string. */
  datatype Info = Info(id: Option<Id>, isPage: bool, opener: Option<Id>)

  predicate Listed(infos: seq<Info>, id: Id) {
    exists i :: 0 <= i < |infos| && infos[i].id == Some(id)
  }

  /** Owners of targets that are still listed. */
  function Retained(infos: seq<Info>, owners: Owners): Owners {
    map id | id in owners && Listed(infos, id) :: owners[id]
  }

  // ---------------------------------------------------------------------------
  // What the sweeps should compute
  // ---------------------------------------------------------------------------

  /** `id` is reached from a target owned by `w` through `n` unowned pages, each opened by the one before. */
  ghost predicate Reaches(infos: seq<Info>, owners: Owners, id: Id, w: Workspace, n: nat)
    decreases n
  {
    if n == 0 then id in owners && owners[id] == w
    else
      && id !in owners
      && exists i :: 0 <= i < |infos| && Opens(infos[i], id) && Reaches(infos, owners, infos[i].opener.value, w, n - 1)
  }

  predicate Opens(info: Info, id: Id) {
    info.isPage && info.id == Some(id) && info.opener.Some?
  }

  ghost predicate Belongs(infos: seq<Info>, owners: Owners, id: Id, w: Workspace) {
    exists n: nat :: Reaches(infos, owners, id, w, n)
  }

  /** No further sweep would change anything. */
  predicate Closed(infos: seq<Info>, owners: Owners) {
    forall i :: 0 <= i < |infos| ==> Settled(infos[i], owners)
  }

  predicate Settled(info: Info, owners: Owners) {
    info.isPage && info.id.Some? && info.opener.Some? && info.opener.value in owners ==> info.id.value in owners
  }

  /** Every recorded owner is justified by a chain of openers. */
  ghost predicate Justified(infos: seq<Info>, base: Owners, owners: Owners) {
    && (forall id :: id in base ==> id in owners && owners[id] == base[id])
    && (forall id :: id in owners ==> Belongs(infos, base, id, owners[id]))
  }

  predicate DistinctIds(infos: seq<Info>) {
    forall i, j :: 0 <= i < j < |infos| && infos[i].id.Some? ==> infos[i].id != infos[j].id
  }

  lemma {:induction false} ReachesUnique(
      infos: seq<Info>, owners: Owners, id: Id, v: Workspace, m: nat, w: Workspace, n: nat)
    requires DistinctIds(infos) && Reaches(infos, owners, id, v, m) && Reaches(infos, owners, id, w, n)
    ensures v == w && m == n
    decreases m
  {
    if m > 0 && n > 0 {
      var i :| 0 <= i < |infos| && Opens(infos[i], id) && Reaches(infos, owners, infos[i].opener.value, v, m - 1);
      var j :| 0 <= j < |infos| && Opens(infos[j], id) && Reaches(infos, owners, infos[j].opener.value, w, n - 1);
      assert i == j;
      ReachesUnique(infos, owners, infos[i].opener.value, v, m - 1, w, n - 1);
    }
  }

  lemma {:induction false} ClosedReaches(
      infos: seq<Info>, base: Owners, owners: Owners, id: Id, w: Workspace, n: nat)
    requires Closed(infos, owners) && Justified(infos, base, owners) && Reaches(infos, base, id, w, n)
    ensures id in owners
    decreases n
  {
    if n > 0 {
      var i :| 0 <= i < |infos| && Opens(infos[i], id) && Reaches(infos, base, infos[i].opener.value, w, n - 1);
      ClosedReaches(infos, base, owners, infos[i].opener.value, w, n - 1);
      assert Settled(infos[i], owners);
    }
  }

  /**
   A justified and closed map is the least fixpoint: a target ends owned exactly when its opener
   chain leads to an owned target, and then with that target's owner.
   */
  lemma LeastFixpoint(infos: seq<Info>, base: Owners, owners: Owners, id: Id, w: Workspace)
    requires DistinctIds(infos) && Closed(infos, owners) && Justified(infos, base, owners)
    ensures id in owners && owners[id] == w <==> Belongs(infos, base, id, w)
  {
    if Belongs(infos, base, id, w) {
      var n: nat :| Reaches(infos, base, id, w, n);
      ClosedReaches(infos, base, owners, id, w, n);
      assert Belongs(infos, base, id, owners[id]);
      var m: nat :| Reaches(infos, base, id, owners[id], m);
      ReachesUnique(infos, base, id, w, n, owners[id], m);
    }
  }

  lemma FixpointUnique(infos: seq<Info>, base: Owners, a: Owners, b: Owners)
    requires DistinctIds(infos)
    requires Closed(infos, a) && Justified(infos, base, a) && Closed(infos, b) && Justified(infos, base, b)
    ensures a == b
  {
    forall id ensures id in a <==> id in b {
      if id in a {
        LeastFixpoint(infos, base, a, id, a[id]);
        LeastFixpoint(infos, base, b, id, a[id]);
      }
      if id in b {
        LeastFixpoint(infos, base, a, id, b[id]);
        LeastFixpoint(infos, base, b, id, b[id]);
      }
    }
    forall id | id in a ensures a[id] == b[id] {
      LeastFixpoint(infos, base, a, id, a[id]);
      LeastFixpoint(infos, base, b, id, a[id]);
    }
  }

  // ---------------------------------------------------------------------------
  // Listing order
  // ---------------------------------------------------------------------------

  ghost predicate SameEntries(a: seq<Info>, b: seq<Info>) {
    forall x :: x in a <==> x in b
  }

  lemma {:induction false} ReachesReordered(
      a: seq<Info>, b: seq<Info>, owners: Owners, id: Id, w: Workspace, n: nat)
    requires SameEntries(a, b) && Reaches(a, owners, id, w, n)
    ensures Reaches(b, owners, id, w, n)
    decreases n
  {
    if n > 0 {
      var i :| 0 <= i < |a| && Opens(a[i], id) && Reaches(a, owners, a[i].opener.value, w, n - 1);
      ReachesReordered(a, b, owners, a[i].opener.value, w, n - 1);
      assert a[i] in b;
      var j :| 0 <= j < |b| && b[j] == a[i];
    }
  }

  lemma ListedReordered(a: seq<Info>, b: seq<Info>, id: Id)
    requires SameEntries(a, b) && Listed(a, id)
    ensures Listed(b, id)
  {
    var i :| 0 <= i < |a| && a[i].id == Some(id);
    assert a[i] in b;
  }

  /** The outcome does not depend on the order in which the browser lists its targets. */
  lemma OrderIndependent(a: seq<Info>, b: seq<Info>, owners: Owners, x: Owners, y: Owners)
    requires SameEntries(a, b) && DistinctIds(a)
    requires Closed(a, x) && Justified(a, Retained(a, owners), x)
    requires Closed(b, y) && Justified(b, Retained(b, owners), y)
    ensures x == y
  {
    var base := Retained(a, owners);
    forall id | id in owners ensures Listed(a, id) <==> Listed(b, id) {
      if Listed(a, id) { ListedReordered(a, b, id); }
      if Listed(b, id) { ListedReordered(b, a, id); }
    }
    assert base == Retained(b, owners);
    assert Justified(a, base, y) by {
      forall id | id in y ensures Belongs(a, base, id, y[id]) {
        assert Belongs(b, base, id, y[id]);
        var n: nat :| Reaches(b, base, id, y[id], n);
        ReachesReordered(b, a, base, id, y[id], n);
      }
    }
    assert Closed(a, y) by {
      forall i | 0 <= i < |a| ensures Settled(a[i], y) {
        assert a[i] in b;
        var j :| 0 <= j < |b| && b[j] == a[i];
        assert Settled(b[j], y);
      }
    }
    FixpointUnique(a, base, x, y);
  }

  // ---------------------------------------------------------------------------
  // The sweeps
  // ---------------------------------------------------------------------------

  function Ids(infos: seq<Info>): set<Id> {
    set i | 0 <= i < |infos| && infos[i].id.Some? :: infos[i].id.value
  }

  lemma {:induction false} IdsBound(infos: seq<Info>)
    ensures |Ids(infos)| <= |infos|
  {
    if infos != [] {
      var last := |infos| - 1;
      var rest := Ids(infos[..last]);
      IdsBound(infos[..last]);
      var own := if infos[last].id.Some? then {infos[last].id.value} else {};
      assert Ids(infos) <= rest + own;
      SubsetSize(Ids(infos), rest + own);
    }
  }

  lemma AdoptJustified(infos: seq<Info>, base: Owners, owners: Owners, i: nat)
    requires Justified(infos, base, owners) && i < |infos| && infos[i].id.Some? && Opens(infos[i], infos[i].id.value)
    requires infos[i].id.value !in owners && infos[i].opener.value in owners
    ensures Justified(infos, base, owners[infos[i].id.value := owners[infos[i].opener.value]])
  {
    var id, opener := infos[i].id.value, infos[i].opener.value;
    assert Belongs(infos, base, opener, owners[opener]);
    var n: nat :| Reaches(infos, base, opener, owners[opener], n);
    assert Reaches(infos, base, id, owners[opener], n + 1);
  }

  /** One sweep over the list, in list order, seeing its own additions. */
  method Sweep(infos: seq<Info>, ghost base: Owners, before: Owners) returns (owners: Owners, changed: bool)
    requires Justified(infos, base, before)
    ensures Justified(infos, base, owners)
    ensures before.Keys <= owners.Keys <= before.Keys + Ids(infos)
    ensures changed <==> before.Keys != owners.Keys
    ensures !changed ==> owners == before && Closed(infos, owners)
  {
    owners, changed := before, false;
    for i := 0 to |infos|
      invariant Justified(infos, base, owners)
      invariant before.Keys <= owners.Keys <= before.Keys + Ids(infos)
      invariant changed <==> before.Keys != owners.Keys
      invariant !changed ==> owners == before && forall k :: 0 <= k < i ==> Settled(infos[k], owners)
    {
      if infos[i].isPage && infos[i].id.Some? && infos[i].id.value !in owners {
        if infos[i].opener.Some? && infos[i].opener.value in owners {
          AdoptJustified(infos, base, owners, i);
          assert infos[i].id.value in Ids(infos);
          owners := owners[infos[i].id.value := owners[infos[i].opener.value]];
          assert infos[i].id.value !in before;
          changed := true;
        }
      }
    }
  }

  /**
   `id` is reached from a live target that `w` owned before, through `n` live pages that nobody owned,
   each opened by the one before; a target is live if the browser lists it.
   */
  ghost predicate ReachedLive(infos: seq<Info>, owners: Owners, id: Id, w: Workspace, n: nat)
    decreases n
  {
    if n == 0 then id in owners && owners[id] == w && exists i :: 0 <= i < |infos| && infos[i].id == Some(id)
    else
      && id !in owners
      && exists i :: 0 <= i < |infos| && infos[i].isPage && infos[i].id == Some(id) && infos[i].opener.Some?
                     && ReachedLive(infos, owners, infos[i].opener.value, w, n - 1)
  }

  lemma {:induction false} ReachedLiveIff(infos: seq<Info>, owners: Owners, id: Id, w: Workspace, n: nat)
    ensures ReachedLive(infos, owners, id, w, n) <==> Reaches(infos, Retained(infos, owners), id, w, n)
    decreases n
  {
    if n > 0 {
      forall i | 0 <= i < |infos| && Opens(infos[i], id)
        ensures ReachedLive(infos, owners, infos[i].opener.value, w, n - 1)
           <==> Reaches(infos, Retained(infos, owners), infos[i].opener.value, w, n - 1)
      {
        ReachedLiveIff(infos, owners, infos[i].opener.value, w, n - 1);
      }
    }
  }

  ghost predicate BelongsLive(infos: seq<Info>, owners: Owners, id: Id, w: Workspace) {
    exists n: nat :: ReachedLive(infos, owners, id, w, n)
  }

  lemma BelongsLiveIff(infos: seq<Info>, owners: Owners, id: Id, w: Workspace)
    ensures BelongsLive(infos, owners, id, w) <==> Belongs(infos, Retained(infos, owners), id, w)
  {
    if BelongsLive(infos, owners, id, w) {
      var n: nat :| ReachedLive(infos, owners, id, w, n);
      ReachedLiveIff(infos, owners, id, w, n);
    }
    if Belongs(infos, Retained(infos, owners), id, w) {
      var n: nat :| Reaches(infos, Retained(infos, owners), id, w, n);
      ReachedLiveIff(infos, owners, id, w, n);
    }
  }

  /** What the whole computation gives, in terms of the target list and the owners before it. */
  lemma AdoptMeans(infos: seq<Info>, owners: Owners, adopted: Owners)
    requires Justified(infos, Retained(infos, owners), adopted) && Closed(infos, adopted)
    requires adopted.Keys <= Ids(infos)
    ensures forall i :: 0 <= i < |infos| && infos[i].id.Some? && infos[i].id.value in owners ==>
      infos[i].id.value in adopted && adopted[infos[i].id.value] == owners[infos[i].id.value]
    ensures forall id :: id in adopted ==> exists i :: 0 <= i < |infos| && infos[i].id == Some(id)
    ensures DistinctIds(infos) ==> forall id, w ::
      id in adopted && adopted[id] == w <==> BelongsLive(infos, owners, id, w)
  {
    forall i | 0 <= i < |infos| && infos[i].id.Some? && infos[i].id.value in owners
      ensures infos[i].id.value in adopted && adopted[infos[i].id.value] == owners[infos[i].id.value]
    {
      assert infos[i].id.value in Retained(infos, owners);
    }
    if DistinctIds(infos) {
      forall id, w ensures id in adopted && adopted[id] == w <==> BelongsLive(infos, owners, id, w) {
        LeastFixpoint(infos, Retained(infos, owners), adopted, id, w);
        BelongsLiveIff(infos, owners, id, w);
      }
    }
  }

  /** The whole computation: the cap on the number of sweeps never cuts it short. */
  method Adopt(infos: seq<Info>, owners: Owners) returns (adopted: Owners)
    // live targets keep their owners, and only live targets have one
    ensures forall i :: 0 <= i < |infos| && infos[i].id.Some? && infos[i].id.value in owners ==>
      infos[i].id.value in adopted && adopted[infos[i].id.value] == owners[infos[i].id.value]
    ensures forall id :: id in adopted ==> exists i :: 0 <= i < |infos| && infos[i].id == Some(id)
    // everything else is owned exactly as its chain of openers says
    ensures DistinctIds(infos) ==> forall id, w ::
      id in adopted && adopted[id] == w <==> BelongsLive(infos, owners, id, w)
    ensures Justified(infos, Retained(infos, owners), adopted) && Closed(infos, adopted)
  {
    adopted := Sweeps(infos, owners);
    AdoptMeans(infos, owners, adopted);
  }

  method Sweeps(infos: seq<Info>, owners: Owners) returns (adopted: Owners)
    ensures Justified(infos, Retained(infos, owners), adopted) && Closed(infos, adopted)
    ensures adopted.Keys <= Ids(infos)
  {
    ghost var base := Retained(infos, owners);
    adopted := Retained(infos, owners);
    assert Justified(infos, base, adopted) by {
      forall id | id in base ensures Belongs(infos, base, id, base[id]) {
        assert Reaches(infos, base, id, base[id], 0);
      }
    }
    ghost var ids := Ids(infos);
    for round := 0 to |infos|
      invariant Justified(infos, base, adopted)
      invariant base.Keys <= adopted.Keys <= ids
      invariant |adopted.Keys| >= round
    {
      var next, changed := Sweep(infos, base, adopted);
      if !changed {
        return;
      }
      SubsetSize(adopted.Keys, next.Keys);
      ProperGrowth(adopted.Keys, next.Keys);
      adopted := next;
    }
    IdsBound(infos);
    Full(adopted.Keys, ids);
  }
}
