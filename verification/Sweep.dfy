/** Registries too large for one message: rotating windows, and what a full turn of them achieves. */
module Sweep {
  import opened Core
  import opened TagTable
  import opened Gossip
  import opened Convergence

  lemma SmallMultiple(d: int, n: nat)
    requires 0 - n < d * n < n
    ensures d == 0
  {
    var down, up := (d - 1) * n, (-d - 1) * n;
    assert d >= 1 ==> down >= 0;
    assert d <= -1 ==> up >= 0;
  }

  /** The remainder is the only residue in range. */
  lemma ResidueIs(z: int, n: nat, c: int, x: nat)
    requires x < n && z == x + c * n
    ensures z % n == x
  {
    var d := z / n - c;
    assert d * n == x - z % n by {
      assert z == z / n * n + z % n;
      assert d * n == z / n * n - c * n;
    }
    SmallMultiple(d, n);
  }

  /** The window a round shows of any listing of `n` names holds the one at index `x`. */
  ghost predicate Shows(n: nat, round: nat, x: nat)
    requires x < n
  {
    forall all: seq<TagGeneration> :: |all| == n ==> all[x] in Window(all, round)
  }

  /** Consecutive windows are adjacent on the cycle, so enough of them meet every index, wherever
      the rotation starts. */
  lemma WindowsCover(n: nat, k: nat, first: nat, x: nat) returns (round: nat)
    requires x < n <= k * M
    ensures first <= round < first + k && Shows(n, round, x)
  {
    var i;
    round, i := CycleMeets(n, k, first, x);
    forall all: seq<TagGeneration> | |all| == n ensures all[x] in Window(all, round) {
      assert Window(all, round)[i] == all[x];
    }
  }

  lemma CycleMeets(n: nat, k: nat, first: nat, x: nat) returns (round: nat, i: nat)
    requires x < n <= k * M
    ensures first <= round < first + k && i < M && ((round * M) % n + i) % n == x
  {
    var y := (x - first * M) % n;
    var q := (x - first * M) / n;
    assert x - first * M == q * n + y;
    round, i := first + y / M, y % M;
    var at := round * M;
    assert at == at / n * n + at % n;
    assert at % n + i == x - q * n - at / n * n;
    assert at % n + i == x + (-q - at / n) * n;
    ResidueIs(at % n + i, n, -q - at / n, x);
  }

  /** Every window of an oversized registry holds exactly M distinct names. */
  lemma WindowDistinct(all: seq<TagGeneration>, round: nat)
    requires |all| > 8192 && DistinctNames(all)
    ensures |Window(all, round)| == 8192 && DistinctNames(Window(all, round))
    ensures forall e :: e in Window(all, round) ==> e in all
  {
    var n, start := |all|, (round * M) % |all|;
    var w := Window(all, round);
    forall i, j | 0 <= i < j < M
      ensures w[i].name != w[j].name
    {
      var p, q := (start + i) % n, (start + j) % n;
      ResidueIs(start + i, n, if start + i < n then 0 else 1, if start + i < n then start + i else start + i - n);
      ResidueIs(start + j, n, if start + j < n then 0 else 1, if start + j < n then start + j else start + j - n);
      assert p != q && (p < q || q < p);
    }
  }

  /** Over an unchanged registry, any run of k rounds with k * M >= n offers every entry. */
  lemma EveryEntryOffered(all: seq<TagGeneration>, first: nat, k: nat, e: TagGeneration) returns (round: nat)
    requires |all| > M && |all| <= k * M && e in all
    ensures first <= round < first + k && e in Window(all, round)
  {
    var x :| 0 <= x < |all| && all[x] == e;
    round := WindowsCover(|all|, k, first, x);
  }

  // ---- what a round offers of an earlier listing --------------------------

  /** The names a digest rotates over. */
  function Names(t: Table): set<Name> { Nonzero(t).Keys }

  lemma SameSize(t: Table, u: Table)
    requires Names(t) == Names(u)
    ensures |Nonzero(t)| == |Nonzero(u)|
  {
    assert |Nonzero(t)| == |Names(t)| && |Nonzero(u)| == |Names(u)|;
  }

  /** The names of a listing, generations forgotten. */
  function Bare(s: seq<TagGeneration>): seq<TagGeneration> {
    seq(|s|, i requires 0 <= i < |s| => TagGeneration(s[i].name, 0))
  }

  /** Two rosters over the same names put each name at the same position. */
  lemma RostersAlign(t: Table, u: Table, all: seq<TagGeneration>, all': seq<TagGeneration>)
    requires Roster(t, all) && Roster(u, all') && Names(t) == Names(u)
    ensures |all| == |all'| && forall i :: 0 <= i < |all| ==> all[i].name == all'[i].name
  {
    forall e | e in Bare(all) ensures e in Bare(all') { BareMember(t, u, all, all', e); }
    forall e | e in Bare(all') ensures e in Bare(all) { BareMember(u, t, all', all, e); }
    ListingSize(all, Nonzero(t));
    ListingSize(all', Nonzero(u));
    SameSize(t, u);
    SortedListingUnique(Bare(all), Bare(all'));
    assert forall i :: 0 <= i < |all| ==> Bare(all)[i].name == all[i].name;
    assert forall i :: 0 <= i < |all'| ==> Bare(all')[i].name == all'[i].name;
  }

  lemma BareMember(t: Table, u: Table, all: seq<TagGeneration>, all': seq<TagGeneration>, e: TagGeneration)
    requires Roster(t, all) && Roster(u, all') && Names(t) == Names(u) && e in Bare(all)
    ensures e in Bare(all')
  {
    var i :| 0 <= i < |Bare(all)| && Bare(all)[i] == e;
    assert all[i] in all && e.name in Names(t);
    assert TagGeneration(e.name, u[e.name]) in all';
    var j :| 0 <= j < |all'| && all'[j] == TagGeneration(e.name, u[e.name]);
    assert Bare(all')[j] == e;
  }

  /** While the names have not changed, a digest holds the entry a round was due to show, at the
      generation the node holds by then; a digest of the whole table holds every entry. */
  lemma DigestShows(a: Table, round: nat, full: bool, entries: seq<TagGeneration>,
                    known: seq<TagGeneration>, earlier: Table, x: nat)
    requires DigestOf(a, round, full, entries) && Roster(earlier, known) && Names(earlier) == Names(a)
    requires x < |known| && Shows(|known|, round, x)
    ensures TagGeneration(known[x].name, Gen(a, known[x].name)) in entries
  {
    assert known[x] in known && known[x].name in Names(earlier);
    if !full {
      var all: seq<TagGeneration> :| Roster(a, all) && |all| > 0 && entries == Window(all, round);
      RostersAlign(earlier, a, known, all);
      assert all[x] in all && all[x].generation == Gen(a, all[x].name);
    }
  }
}
