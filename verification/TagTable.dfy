/** A node's tag registry as the cluster sees it: names, generations, merging by maximum. */
module TagTable {
  import opened Core

  type Name = bytes
  type Table = map<Name, u64>
  datatype TagGeneration = TagGeneration(name: Name, generation: u64)

  /** Most entries one `TAG_SYNC` message may carry. */
  const MAX_TAG_SYNC_ENTRIES: nat := 8192

  /** The generation held for a name; zero says "never invalidated", known or not. */
  function Gen(t: Table, n: Name): u64 { if n in t then t[n] else 0 }

  function Merge(t: Table, e: TagGeneration): Table { t[e.name := Max(Gen(t, e.name), e.generation)] }

  /** Merging a message: generation zero carries no information and registers nothing. */
  function MergeAll(t: Table, entries: seq<TagGeneration>): Table
    decreases |entries|
  {
    if entries == [] then t
    else MergeAll(if entries[0].generation == 0 then t else Merge(t, entries[0]), entries[1..])
  }

  predicate Carries(entries: seq<TagGeneration>, n: Name) {
    exists e :: e in entries && e.name == n && e.generation > 0
  }

  /** After a merge each name holds the maximum of what was held and everything offered for it,
      and only names offered at a non-zero generation are new. */
  lemma {:induction false} MergeAllIsMaximum(t: Table, entries: seq<TagGeneration>, n: Name)
    ensures n in MergeAll(t, entries) <==> n in t || Carries(entries, n)
    ensures Gen(MergeAll(t, entries), n) >= Gen(t, n)
    ensures forall e :: e in entries && e.name == n ==> Gen(MergeAll(t, entries), n) >= e.generation
    ensures Gen(MergeAll(t, entries), n) == Gen(t, n)
         || TagGeneration(n, Gen(MergeAll(t, entries), n)) in entries
    decreases |entries|
  {
    if entries != [] {
      var e, rest := entries[0], entries[1..];
      MergeAllIsMaximum(if e.generation == 0 then t else Merge(t, e), rest, n);
      assert entries == [e] + rest;
      assert Carries(entries, n) <==> (e.name == n && e.generation > 0) || Carries(rest, n) by {
        if Carries(rest, n) {
          var f :| f in rest && f.name == n && f.generation > 0;
          assert f in entries;
        }
        assert e in entries;
      }
    }
  }

  /** Delivery may be sloppy: two messages with the same entries, in any order and with any
      repetition, leave the same table. */
  lemma MergeIgnoresOrder(t: Table, a: seq<TagGeneration>, b: seq<TagGeneration>)
    requires forall e :: e in a <==> e in b
    ensures MergeAll(t, a) == MergeAll(t, b)
  {
    var ta, tb := MergeAll(t, a), MergeAll(t, b);
    forall n
      ensures n in ta <==> n in tb
      ensures Gen(ta, n) == Gen(tb, n)
    {
      MergeAllIsMaximum(t, a, n);
      MergeAllIsMaximum(t, b, n);
    }
    assert forall n :: n in ta ==> ta[n] == Gen(ta, n) && tb[n] == Gen(tb, n);
  }

  lemma {:induction false} MergeSplits(t: Table, a: seq<TagGeneration>, b: seq<TagGeneration>)
    ensures MergeAll(t, a + b) == MergeAll(MergeAll(t, a), b)
    decreases |a|
  {
    if a == [] {
      assert a + b == b;
    } else {
      assert (a + b)[1..] == a[1..] + b;
      MergeSplits(if a[0].generation == 0 then t else Merge(t, a[0]), a[1..], b);
    }
  }

  function MergeEach(t: Table, messages: seq<seq<TagGeneration>>): Table
    decreases |messages|
  {
    if messages == [] then t else MergeEach(MergeAll(t, messages[0]), messages[1..])
  }

  function Joined(messages: seq<seq<TagGeneration>>): seq<TagGeneration> {
    if messages == [] then [] else messages[0] + Joined(messages[1..])
  }

  lemma {:induction false} MergeEachJoins(t: Table, messages: seq<seq<TagGeneration>>)
    ensures MergeEach(t, messages) == MergeAll(t, Joined(messages))
    decreases |messages|
  {
    if messages != [] {
      MergeSplits(t, messages[0], Joined(messages[1..]));
      MergeEachJoins(MergeAll(t, messages[0]), messages[1..]);
    }
  }

  /** However the same entries are cut into messages, ordered and repeated, merging the messages one
      by one leaves the same table. */
  lemma SplitMessagesMerge(t: Table, a: seq<seq<TagGeneration>>, b: seq<seq<TagGeneration>>)
    requires forall e :: e in Joined(a) <==> e in Joined(b)
    ensures MergeEach(t, a) == MergeEach(t, b)
  {
    MergeEachJoins(t, a);
    MergeEachJoins(t, b);
    MergeIgnoresOrder(t, Joined(a), Joined(b));
  }

  // ---- listings ---------------------------------------------------------

  predicate DistinctNames(s: seq<TagGeneration>) {
    forall i, j :: 0 <= i < j < |s| ==> s[i].name != s[j].name
  }

  /** `s` lists the table: every name once, with its generation, in some order. */
  ghost predicate Lists(s: seq<TagGeneration>, t: Table) {
    DistinctNames(s) && forall e :: e in s <==> e.name in t && t[e.name] == e.generation
  }

  function Nonzero(t: Table): Table { map n | n in t && t[n] > 0 :: t[n] }

  /** A list of distinct names is no longer than any set holding them. */
  lemma {:induction false} DistinctFits(s: seq<TagGeneration>, names: set<Name>)
    requires DistinctNames(s) && forall i :: 0 <= i < |s| ==> s[i].name in names
    ensures |s| <= |names|
    decreases |s|
  {
    if s != [] {
      var last := |s| - 1;
      DistinctFits(s[..last], names - {s[last].name});
    }
  }

  lemma ListingSize(s: seq<TagGeneration>, t: Table)
    requires Lists(s, t)
    ensures |s| == |t|
  {
    var names := set i | 0 <= i < |s| :: s[i].name;
    assert names == t.Keys by {
      forall n | n in t.Keys ensures n in names {
        assert TagGeneration(n, t[n]) in s;
      }
      forall n | n in names ensures n in t.Keys {
        var i :| 0 <= i < |s| && s[i].name == n;
        assert s[i] in s;
      }
    }
    NamesCount(s, names);
    assert |t| == |t.Keys|;
  }

  lemma {:induction false} NamesCount(s: seq<TagGeneration>, names: set<Name>)
    requires DistinctNames(s) && names == (set i | 0 <= i < |s| :: s[i].name)
    ensures |names| == |s|
    decreases |s|
  {
    if s != [] {
      var last := |s| - 1;
      var front := set i | 0 <= i < last :: s[..last][i].name;
      NamesCount(s[..last], front);
      assert names == front + {s[last].name};
    }
  }

  // ---- byte order on names ----------------------------------------------

  predicate Less(a: bytes, b: bytes) {
    b != [] && (a == [] || a[0] < b[0] || (a[0] == b[0] && Less(a[1..], b[1..])))
  }

  lemma {:induction false} LessTotal(a: bytes, b: bytes)
    ensures Less(a, b) || Less(b, a) || a == b
    ensures !(Less(a, b) && Less(b, a))
    ensures !Less(a, a)
  {
    if a != [] { LessTotal(a[1..], a[1..]); }
    if a != [] && b != [] {
      LessTotal(a[1..], b[1..]);
      assert a[0] == b[0] && a[1..] == b[1..] ==> a == [a[0]] + a[1..] && b == [b[0]] + b[1..];
    }
  }

  lemma {:induction false} LessTransitive(a: bytes, b: bytes, c: bytes)
    requires Less(a, b) && Less(b, c)
    ensures Less(a, c)
  {
    if a != [] && a[0] == b[0] && b[0] == c[0] { LessTransitive(a[1..], b[1..], c[1..]); }
  }

  predicate SortedByName(s: seq<TagGeneration>) {
    forall i, j :: 0 <= i < j < |s| ==> Less(s[i].name, s[j].name)
  }

  /** Names are distinct, so a sorted listing of a table is the only one. */
  lemma {:induction false} SortedListingUnique(s: seq<TagGeneration>, r: seq<TagGeneration>)
    requires SortedByName(s) && SortedByName(r) && |s| == |r| && forall e :: e in s <==> e in r
    ensures s == r
    decreases |s|
  {
    if s != [] {
      assert r[0] in r && s[0] in s;
      var i :| 0 <= i < |s| && s[i] == r[0];
      var j :| 0 <= j < |r| && r[j] == s[0];
      LessTotal(s[0].name, r[0].name);
      LessTotal(s[0].name, s[0].name);
      assert i == 0 && j == 0;
      TailMembers(s);
      TailMembers(r);
      SortedListingUnique(s[1..], r[1..]);
      assert s == [s[0]] + s[1..] && r == [r[0]] + r[1..];
    }
  }

  lemma TailMembers(s: seq<TagGeneration>)
    requires s != [] && SortedByName(s)
    ensures forall e :: e in s[1..] <==> e in s && e != s[0]
  {
    forall e | e in s[1..] ensures e != s[0] {
      var i :| 0 <= i < |s[1..]| && s[1..][i] == e;
      LessTotal(s[0].name, s[0].name);
      assert s[i + 1] == e && Less(s[0].name, s[i + 1].name);
    }
    forall e | e in s && e != s[0] ensures e in s[1..] {
      var i :| 0 <= i < |s| && s[i] == e;
      assert s[1..][i - 1] == e;
    }
  }

  function Insert(e: TagGeneration, s: seq<TagGeneration>): seq<TagGeneration> {
    if s == [] || Less(e.name, s[0].name) then [e] + s else [s[0]] + Insert(e, s[1..])
  }

  function SortByName(s: seq<TagGeneration>): seq<TagGeneration> {
    if s == [] then [] else Insert(s[0], SortByName(s[1..]))
  }

  lemma {:induction false} InsertSorts(e: TagGeneration, s: seq<TagGeneration>)
    requires SortedByName(s) && forall f :: f in s ==> f.name != e.name
    ensures SortedByName(Insert(e, s))
    ensures forall f :: f in Insert(e, s) <==> f == e || f in s
  {
    if s == [] {
    } else if Less(e.name, s[0].name) {
      forall j | 0 <= j < |s| ensures Less(e.name, s[j].name) {
        if j > 0 { LessTransitive(e.name, s[0].name, s[j].name); }
      }
    } else {
      assert s[0] in s;
      LessTotal(e.name, s[0].name);
      InsertSorts(e, s[1..]);
      var r := Insert(e, s[1..]);
      forall j | 0 <= j < |r| ensures Less(s[0].name, r[j].name) {
        assert r[j] in r;
        if r[j] != e { var k :| 0 <= k < |s[1..]| && s[1..][k] == r[j]; assert s[k + 1] == r[j]; }
      }
      assert s == [s[0]] + s[1..];
    }
  }

  lemma {:induction false} SortByNameSorts(s: seq<TagGeneration>)
    requires DistinctNames(s)
    ensures SortedByName(SortByName(s))
    ensures forall e :: e in SortByName(s) <==> e in s
    decreases |s|
  {
    if s != [] {
      SortByNameSorts(s[1..]);
      forall f | f in SortByName(s[1..]) ensures f.name != s[0].name {
        var i :| 0 <= i < |s[1..]| && s[1..][i] == f;
        assert s[i + 1] == f;
      }
      InsertSorts(s[0], SortByName(s[1..]));
      assert s == [s[0]] + s[1..];
    }
  }

  lemma SortedIsDistinct(s: seq<TagGeneration>)
    requires SortedByName(s)
    ensures DistinctNames(s)
  {
    forall i, j | 0 <= i < j < |s| ensures s[i].name != s[j].name { LessTotal(s[i].name, s[j].name); }
  }

  lemma {:induction false} SomeListing(t: Table) returns (s: seq<TagGeneration>)
    ensures Lists(s, t)
    decreases |t|
  {
    s := [];
    if t != map[] {
      var n :| n in t;
      var rest := t - {n};
      assert rest.Keys == t.Keys - {n};
      s := SomeListing(rest);
      s := s + [TagGeneration(n, t[n])];
    }
  }
}
