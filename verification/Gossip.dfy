/** One digest exchange between two nodes: what is offered, what is answered, what is merged. */
module Gossip {
  import opened Core
  import opened TagTable

  const M: nat := MAX_TAG_SYNC_ENTRIES

  /** The receiver holds more for `n` than the sender is known to: it was offered less, or the
      sender listed its whole table and left `n` out. */
  ghost predicate Lagging(mine: Table, full: bool, entries: seq<TagGeneration>, n: Name) {
    n in mine &&
    (|| (exists e :: e in entries && e.name == n && mine[n] > e.generation)
     || (full && mine[n] > 0 && forall e :: e in entries ==> e.name != n))
  }

  /** Everything the receiver could answer, before the message limit. */
  ghost predicate WholeReply(mine: Table, full: bool, entries: seq<TagGeneration>, whole: seq<TagGeneration>) {
    && (forall e :: e in whole <==> Lagging(mine, full, entries, e.name) && e.generation == mine[e.name])
    && (DistinctNames(entries) ==> DistinctNames(whole))
  }

  function Truncate(s: seq<TagGeneration>): seq<TagGeneration> { if |s| <= M then s else s[..M] }

  ghost predicate ReplyOf(mine: Table, full: bool, entries: seq<TagGeneration>, behind: seq<TagGeneration>) {
    exists whole :: WholeReply(mine, full, entries, whole) && behind == Truncate(whole)
  }

  /** The window of a sorted listing offered in one round. */
  function Window(all: seq<TagGeneration>, round: nat): seq<TagGeneration>
    requires |all| > 0
  {
    var start := (round * M) % |all|;
    seq(M, i requires 0 <= i < M => all[(start + i) % |all|])
  }

  ghost predicate Roster(t: Table, all: seq<TagGeneration>) { Lists(all, Nonzero(t)) && SortedByName(all) }

  /** What a node offers: its whole non-zero table when that fits, else a rotating window of it. */
  ghost predicate DigestOf(t: Table, round: nat, full: bool, entries: seq<TagGeneration>) {
    if full then |Nonzero(t)| <= M && Lists(entries, Nonzero(t))
    else |Nonzero(t)| > M && exists all :: Roster(t, all) && |all| > 0 && entries == Window(all, round)
  }

  /** How many entries say anything at all. */
  function Informative(entries: seq<TagGeneration>): nat {
    if entries == [] then 0
    else (if entries[0].generation == 0 then 0 else 1) + Informative(entries[1..])
  }

  class Registry {
    var table: Table

    constructor (t: Table)
      ensures table == t
    {
      table := t;
    }

    /** Max-merges a batch, counting the entries applied. */
    method ApplyMerges(entries: seq<TagGeneration>) returns (applied: nat)
      modifies this
      ensures table == MergeAll(old(table), entries)
      ensures applied == Informative(entries)
    {
      applied := 0;
      for i := 0 to |entries|
        invariant applied + Informative(entries[i..]) == Informative(entries)
        invariant MergeAll(old(table), entries) == MergeAll(table, entries[i..])
      {
        assert entries[i..][1..] == entries[i + 1..];
        if entries[i].generation != 0 {
          table := Merge(table, entries[i]);
          applied := applied + 1;
        }
      }
    }

    /** The registry's listing, in whatever order it iterates. */
    method TagGenerations() returns (known: seq<TagGeneration>)
      ensures Lists(known, table)
    {
      known := [];
      var rest := table.Keys;
      while rest != {}
        invariant rest <= table.Keys && DistinctNames(known)
        invariant forall e :: e in known <==> e.name in table && e.name !in rest && table[e.name] == e.generation
        decreases rest
      {
        var n :| n in rest;
        known := known + [TagGeneration(n, table[n])];
        rest := rest - {n};
      }
    }

    /** Answers a peer's `TAG_SYNC` from the table as it stood, then merges what was offered. */
    method TagSync(full: bool, entries: seq<TagGeneration>) returns (behind: seq<TagGeneration>)
      modifies this
      ensures ReplyOf(old(table), full, entries, behind)
      ensures table == MergeAll(old(table), entries)
    {
      var known := TagGenerations();
      var offered := AnswerOffers(table, entries);
      behind := offered;
      if full {
        behind := AnswerUnnamed(table, entries, known, offered);
      }
      AnswerIsWhole(table, full, entries, known, offered, behind);
      ghost var whole := behind;
      if |behind| > M {
        behind := behind[..M];
      }
      assert behind == Truncate(whole);
      var applied := ApplyMerges(entries);
    }

    /** Builds the digest offered in a gossip round. */
    method BuildDigest(round: nat) returns (full: bool, entries: seq<TagGeneration>)
      ensures DigestOf(table, round, full, entries)
    {
      var known := TagGenerations();
      var all := [];
      for i := 0 to |known|
        invariant DistinctNames(all)
        invariant forall e :: e in all <==> e in known[..i] && e.generation > 0
      {
        assert known[..i + 1] == known[..i] + [known[i]];
        forall e | e in all ensures e.name != known[i].name {
          var j :| 0 <= j < i && known[j] == e;
        }
        if known[i].generation > 0 {
          all := all + [known[i]];
        }
      }
      assert known[..|known|] == known;
      assert Lists(all, Nonzero(table));
      ListingSize(all, Nonzero(table));
      if |all| <= M {
        return true, all;
      }
      SortByNameSorts(all);
      var sorted := SortByName(all);
      SortedIsDistinct(sorted);
      assert Lists(sorted, Nonzero(table));
      ListingSize(sorted, Nonzero(table));
      assert Roster(table, sorted);
      return false, Window(sorted, round);
    }
  }

  method AnswerOffers(t: Table, entries: seq<TagGeneration>) returns (behind: seq<TagGeneration>)
    ensures AnswersOffered(t, entries, |entries|, behind)
  {
    behind := [];
    for i := 0 to |entries|
      invariant AnswersOffered(t, entries, i, behind)
    {
      var e := entries[i];
      if e.name in t && t[e.name] > e.generation {
        OfferStep(t, entries, i, behind);
        behind := behind + [TagGeneration(e.name, t[e.name])];
      } else {
        OfferSkip(t, entries, i, behind);
      }
    }
  }

  method AnswerUnnamed(t: Table, entries: seq<TagGeneration>, known: seq<TagGeneration>, offered: seq<TagGeneration>)
    returns (behind: seq<TagGeneration>)
    requires Lists(known, t) && AnswersOffered(t, entries, |entries|, offered)
    ensures AnswersUnnamed(entries, known, |known|, offered, behind)
  {
    behind := offered;
    for i := 0 to |known|
      invariant AnswersUnnamed(entries, known, i, offered, behind)
    {
      assert known[..i + 1] == known[..i] + [known[i]];
      if known[i].generation > 0 && Unnamed(entries, known[i].name) {
        UnnamedStep(t, entries, known, i, offered, behind);
        behind := behind + [known[i]];
      }
    }
  }

  lemma OfferStep(t: Table, entries: seq<TagGeneration>, i: nat, behind: seq<TagGeneration>)
    requires i < |entries| && AnswersOffered(t, entries, i, behind)
    requires entries[i].name in t && t[entries[i].name] > entries[i].generation
    ensures AnswersOffered(t, entries, i + 1, behind + [TagGeneration(entries[i].name, t[entries[i].name])])
  {
    if DistinctNames(entries) {
      forall k | 0 <= k < |behind| ensures behind[k].name != entries[i].name {
        assert behind[k] in behind;
        var j :| 0 <= j < i && entries[j].name == behind[k].name && t[behind[k].name] > entries[j].generation;
      }
    }
  }

  lemma OfferSkip(t: Table, entries: seq<TagGeneration>, i: nat, behind: seq<TagGeneration>)
    requires i < |entries| && AnswersOffered(t, entries, i, behind)
    requires !(entries[i].name in t && t[entries[i].name] > entries[i].generation)
    ensures AnswersOffered(t, entries, i + 1, behind)
  {
    forall e | e in behind
      ensures exists j :: 0 <= j < i + 1 && entries[j].name == e.name && t[e.name] > entries[j].generation
    {
      var j :| 0 <= j < i && entries[j].name == e.name && t[e.name] > entries[j].generation;
    }
  }

  lemma UnnamedStep(t: Table, entries: seq<TagGeneration>, known: seq<TagGeneration>, i: nat,
                    offered: seq<TagGeneration>, behind: seq<TagGeneration>)
    requires i < |known| && AnswersUnnamed(entries, known, i, offered, behind)
    requires Lists(known, t) && AnswersOffered(t, entries, |entries|, offered)
    requires known[i].generation > 0 && Unnamed(entries, known[i].name)
    ensures AnswersUnnamed(entries, known, i + 1, offered, behind + [known[i]])
  {
    assert known[..i + 1] == known[..i] + [known[i]];
    forall k | 0 <= k < |behind| ensures behind[k].name != known[i].name {
      assert behind[k] in behind;
      if behind[k] in offered {
        var j :| 0 <= j < |entries| && entries[j].name == behind[k].name && t[behind[k].name] > entries[j].generation;
      } else {
        var j :| 0 <= j < i && known[j] == behind[k];
      }
    }
  }

  predicate Unnamed(entries: seq<TagGeneration>, n: Name) {
    forall j :: 0 <= j < |entries| ==> entries[j].name != n
  }

  /** The part of the reply that answers the first `i` offers. */
  ghost predicate AnswersOffered(t: Table, entries: seq<TagGeneration>, i: nat, behind: seq<TagGeneration>)
    requires i <= |entries|
  {
    && (forall e :: e in behind <==>
          e.name in t && e.generation == t[e.name]
          && exists j :: 0 <= j < i && entries[j].name == e.name && t[e.name] > entries[j].generation)
    && (DistinctNames(entries) ==> DistinctNames(behind))
  }

  /** The part of the reply that adds the first `i` listed names nobody offered. */
  ghost predicate AnswersUnnamed(entries: seq<TagGeneration>, known: seq<TagGeneration>, i: nat,
                                 offered: seq<TagGeneration>, behind: seq<TagGeneration>)
    requires i <= |known|
  {
    && (forall e :: e in behind <==>
          e in offered || (e in known[..i] && e.generation > 0 && Unnamed(entries, e.name)))
    && (DistinctNames(offered) ==> DistinctNames(behind))
  }

  lemma AnswerIsWhole(t: Table, full: bool, entries: seq<TagGeneration>, known: seq<TagGeneration>,
                      offered: seq<TagGeneration>, behind: seq<TagGeneration>)
    requires Lists(known, t) && AnswersOffered(t, entries, |entries|, offered)
    requires if full then AnswersUnnamed(entries, known, |known|, offered, behind) else behind == offered
    ensures WholeReply(t, full, entries, behind)
  {
    assert known[..|known|] == known;
    forall e
      ensures e in behind <==> Lagging(t, full, entries, e.name) && e.generation == t[e.name]
    {
      if e in behind && e in offered {
        var j :| 0 <= j < |entries| && entries[j].name == e.name && t[e.name] > entries[j].generation;
        assert entries[j] in entries;
      }
      if Lagging(t, full, entries, e.name) && e.generation == t[e.name] {
        if f :| f in entries && f.name == e.name && t[e.name] > f.generation {
          var j :| 0 <= j < |entries| && entries[j] == f;
          assert e in offered;
        } else {
          assert forall j :: 0 <= j < |entries| ==> entries[j] in entries;
          assert e in known;
        }
      }
    }
  }

  lemma SomeRoster(t: Table) returns (all: seq<TagGeneration>)
    ensures Roster(t, all)
  {
    var s := SomeListing(Nonzero(t));
    SortByNameSorts(s);
    all := SortByName(s);
    SortedIsDistinct(all);
  }
}
