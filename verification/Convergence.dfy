/** Anti-entropy: digest exchanges drive nodes to the pointwise maximum of what they hold. */
module Convergence {
  import opened Core
  import opened TagTable
  import opened Gossip

  ghost predicate AtMost(t: Table, u: Table) { forall n :: Gen(t, n) <= Gen(u, n) }
  ghost predicate Agree(t: Table, u: Table) { forall n :: Gen(t, n) == Gen(u, n) }

  /** The least table above both. */
  function Join(t: Table, u: Table): Table {
    map n | n in t.Keys + u.Keys :: Max(Gen(t, n), Gen(u, n))
  }

  /** One round: `a` offers a digest, `b` answers and merges, `a` merges the answer. */
  ghost predicate Exchange(a: Table, b: Table, round: nat, a': Table, b': Table) {
    exists x: Traffic :: Carried(a, b, round, x, a', b')
  }

  /** What crosses the wire in one exchange. */
  datatype Traffic = Traffic(full: bool, entries: seq<TagGeneration>, behind: seq<TagGeneration>)

  ghost predicate Carried(a: Table, b: Table, round: nat, x: Traffic, a': Table, b': Table) {
    && DigestOf(a, round, x.full, x.entries) && ReplyOf(b, x.full, x.entries, x.behind)
    && b' == MergeAll(b, x.entries) && a' == MergeAll(a, x.behind)
  }

  /** A digest only ever repeats the offering table. */
  lemma DigestIsHonest(a: Table, round: nat, full: bool, entries: seq<TagGeneration>, e: TagGeneration)
    requires DigestOf(a, round, full, entries) && e in entries
    ensures e.generation > 0 && e.generation == Gen(a, e.name)
  {
    if !full {
      var all: seq<TagGeneration> :| Roster(a, all) && |all| > 0 && entries == Window(all, round);
      var i :| 0 <= i < M && entries[i] == e;
      assert all[((round * M) % |all| + i) % |all|] in all;
    }
  }

  lemma ReplyIsHonest(b: Table, full: bool, entries: seq<TagGeneration>, behind: seq<TagGeneration>, e: TagGeneration)
    requires ReplyOf(b, full, entries, behind) && e in behind
    ensures e.generation == Gen(b, e.name) && Lagging(b, full, entries, e.name)
  {
    var whole: seq<TagGeneration> :| WholeReply(b, full, entries, whole) && behind == Truncate(whole);
    assert e in whole;
  }

  lemma MergeBelow(t: Table, entries: seq<TagGeneration>, top: Table)
    requires AtMost(t, top) && forall e :: e in entries ==> e.generation <= Gen(top, e.name)
    ensures AtMost(t, MergeAll(t, entries)) && AtMost(MergeAll(t, entries), top)
  {
    forall n
      ensures Gen(t, n) <= Gen(MergeAll(t, entries), n) <= Gen(top, n)
    {
      MergeAllIsMaximum(t, entries, n);
    }
  }

  /** No exchange lowers a generation or invents one: both sides stay under any common bound. */
  lemma ExchangeBounds(a: Table, b: Table, round: nat, a': Table, b': Table, top: Table)
    requires Exchange(a, b, round, a', b') && AtMost(a, top) && AtMost(b, top)
    ensures AtMost(a, a') && AtMost(a', top) && AtMost(b, b') && AtMost(b', top)
  {
    var x: Traffic :| Carried(a, b, round, x, a', b');
    var entries, behind := x.entries, x.behind;
    forall e | e in entries ensures e.generation <= Gen(top, e.name) {
      DigestIsHonest(a, round, x.full, entries, e);
    }
    forall e | e in behind ensures e.generation <= Gen(top, e.name) {
      ReplyIsHonest(b, x.full, entries, behind, e);
    }
    MergeBelow(b, entries, top);
    MergeBelow(a, behind, top);
  }

  lemma FullDigestCovers(a: Table, round: nat, entries: seq<TagGeneration>, b: Table, n: Name)
    requires DigestOf(a, round, true, entries)
    ensures Gen(MergeAll(b, entries), n) == Max(Gen(a, n), Gen(b, n))
  {
    MergeAllIsMaximum(b, entries, n);
    if Gen(a, n) > 0 { assert TagGeneration(n, Gen(a, n)) in entries; }
  }

  /** Where the receiver is ahead of a whole-table digest, it answers. */
  lemma FullDigestNames(a: Table, round: nat, entries: seq<TagGeneration>, b: Table, n: Name)
    requires DigestOf(a, round, true, entries)
    ensures Gen(b, n) > Gen(a, n) ==> Lagging(b, true, entries, n)
  {
    if Gen(b, n) > Gen(a, n) {
      if Gen(a, n) > 0 { assert TagGeneration(n, Gen(a, n)) in entries; }
    }
  }

  /** When both tables fit in one message the answer is not cut short. */
  lemma NothingTruncated(a: Table, b: Table, round: nat, entries: seq<TagGeneration>, whole: seq<TagGeneration>)
    requires DigestOf(a, round, true, entries) && WholeReply(b, true, entries, whole)
    requires |Nonzero(a).Keys + Nonzero(b).Keys| <= M
    ensures |whole| <= M
  {
    forall i | 0 <= i < |whole| ensures whole[i].name in Nonzero(a).Keys + Nonzero(b).Keys {
      assert whole[i] in whole;
    }
    DistinctFits(whole, Nonzero(a).Keys + Nonzero(b).Keys);
  }

  lemma UntruncatedReplyLifts(a: Table, b: Table, round: nat, entries: seq<TagGeneration>, whole: seq<TagGeneration>, n: Name)
    requires DigestOf(a, round, true, entries) && WholeReply(b, true, entries, whole)
    ensures Gen(MergeAll(a, whole), n) == Max(Gen(a, n), Gen(b, n))
  {
    MergeAllIsMaximum(a, whole, n);
    FullDigestNames(a, round, entries, b, n);
    if Gen(b, n) > Gen(a, n) { assert TagGeneration(n, Gen(b, n)) in whole; }
  }

  /** A whole-table digest brings the receiver to the maximum at once; the sender too, whenever
      the two tables together fit in one message. */
  lemma FullExchangeReachesMaximum(a: Table, b: Table, round: nat, a': Table, b': Table)
    requires Exchange(a, b, round, a', b') && |Nonzero(a)| <= M
    ensures Agree(b', Join(a, b))
    ensures |Nonzero(a).Keys + Nonzero(b).Keys| <= M ==> Agree(a', Join(a, b))
  {
    var x: Traffic :| Carried(a, b, round, x, a', b');
    assert x.full;
    var whole: seq<TagGeneration> :| WholeReply(b, true, x.entries, whole) && x.behind == Truncate(whole);
    hide DigestOf, WholeReply, ReplyOf, MergeAll;
    forall n ensures Gen(b', n) == Gen(Join(a, b), n) { FullDigestCovers(a, round, x.entries, b, n); }
    if |Nonzero(a).Keys + Nonzero(b).Keys| <= M {
      NothingTruncated(a, b, round, x.entries, whole);
      forall n ensures Gen(a', n) == Gen(Join(a, b), n) {
        UntruncatedReplyLifts(a, b, round, x.entries, whole, n);
      }
    }
  }

  /** Truncated or not, a whole-table exchange between nodes that disagree raises somebody. */
  lemma FullExchangeProgress(a: Table, b: Table, round: nat, a': Table, b': Table) returns (n: Name)
    requires Exchange(a, b, round, a', b') && |Nonzero(a)| <= M && !Agree(a, b)
    ensures Gen(a', n) > Gen(a, n) || Gen(b', n) > Gen(b, n)
  {
    var x: Traffic :| Carried(a, b, round, x, a', b');
    var entries, behind := x.entries, x.behind;
    n :| Gen(a, n) != Gen(b, n);
    FullDigestCovers(a, round, entries, b, n);
    if Gen(b, n) > Gen(a, n) {
      FullDigestNames(a, round, entries, b, n);
      var whole: seq<TagGeneration> :| WholeReply(b, true, entries, whole) && behind == Truncate(whole);
      assert TagGeneration(n, Gen(b, n)) in whole;
      var first := behind[0];
      ReplyIsHonest(b, true, entries, behind, first);
      MergeAllIsMaximum(a, behind, first.name);
      n := first.name;
      if e :| e in entries && e.name == n && b[n] > e.generation {
        DigestIsHonest(a, round, true, entries, e);
      } else {
        if Gen(a, n) > 0 { assert TagGeneration(n, Gen(a, n)) in entries; }
      }
    }
  }

  /** There is an answer to every message. */
  lemma {:induction false} SomeAnswer(mine: Table, full: bool, entries: seq<TagGeneration>, known: seq<TagGeneration>)
    returns (whole: seq<TagGeneration>)
    requires DistinctNames(known)
    ensures DistinctNames(whole)
    ensures forall e :: e in whole <==> e in known && Lagging(mine, full, entries, e.name)
    decreases |known|
  {
    whole := [];
    if known != [] {
      var last := |known| - 1;
      assert known == known[..last] + [known[last]];
      whole := SomeAnswer(mine, full, entries, known[..last]);
      if Lagging(mine, full, entries, known[last].name) {
        forall i | 0 <= i < |whole| ensures whole[i].name != known[last].name {
          assert whole[i] in whole;
          var j :| 0 <= j < last && known[..last][j] == whole[i];
          assert known[j] == whole[i];
        }
        whole := whole + [known[last]];
      }
    }
  }

  lemma SomeReply(mine: Table, full: bool, entries: seq<TagGeneration>) returns (behind: seq<TagGeneration>)
    ensures ReplyOf(mine, full, entries, behind)
  {
    var known := SomeListing(mine);
    var whole := SomeAnswer(mine, full, entries, known);
    hide Lagging;
    assert WholeReply(mine, full, entries, whole);
    behind := Truncate(whole);
  }

  /** Any node can make an exchange with any other in any round. */
  lemma ExchangeExists(a: Table, b: Table, round: nat) returns (a': Table, b': Table)
    ensures Exchange(a, b, round, a', b')
  {
    var all := SomeRoster(a);
    ListingSize(all, Nonzero(a));
    var full := |Nonzero(a)| <= M;
    var entries := if full then all else Window(all, round);
    assert DigestOf(a, round, full, entries);
    hide DigestOf, MergeAll, ReplyOf;
    var behind := SomeReply(b, full, entries);
    var x := Traffic(full, entries, behind);
    a', b' := MergeAll(a, x.behind), MergeAll(b, x.entries);
    assert Carried(a, b, round, x, a', b');
  }
}
