/** A whole cluster gossiping over its peer lists: exchanges run out, and when they do all agree. */
module AntiEntropy {
  import opened Core
  import opened TagTable
  import opened Gossip
  import opened Convergence

  type Cluster = seq<Table>

  function Lack(top: Table, t: Table, n: Name): nat { Max(Gen(top, n) as int - Gen(t, n) as int, 0) }

  /** How far a table is below `top`, summed over a set of names. */
  ghost function Gap(names: set<Name>, top: Table, t: Table): nat
    decreases |names|
  {
    if names == {} then 0
    else var n :| n in names; Lack(top, t, n) + Gap(names - {n}, top, t)
  }

  lemma {:induction false} GapPick(names: set<Name>, top: Table, t: Table, n: Name)
    requires n in names
    ensures Gap(names, top, t) == Lack(top, t, n) + Gap(names - {n}, top, t)
    decreases |names|
  {
    var m :| m in names && Gap(names, top, t) == Lack(top, t, m) + Gap(names - {m}, top, t);
    if m != n {
      GapPick(names - {m}, top, t, n);
      GapPick(names - {n}, top, t, m);
      assert names - {m} - {n} == names - {n} - {m};
    }
  }

  lemma {:induction false} GapShrinks(names: set<Name>, top: Table, t: Table, t': Table)
    requires AtMost(t, t')
    ensures Gap(names, top, t') <= Gap(names, top, t)
    decreases |names|
  {
    if names != {} {
      var n :| n in names;
      GapPick(names, top, t, n);
      GapPick(names, top, t', n);
      GapShrinks(names - {n}, top, t, t');
    }
  }

  lemma GapShrinksStrictly(names: set<Name>, top: Table, t: Table, t': Table, n: Name)
    requires AtMost(t, t') && n in names && Gen(t, n) < Gen(t', n) <= Gen(top, n)
    ensures Gap(names, top, t') < Gap(names, top, t)
  {
    GapPick(names, top, t, n);
    GapPick(names, top, t', n);
    GapShrinks(names - {n}, top, t, t');
  }

  /** The cluster's distance from agreement. */
  ghost function Total(top: Table, nodes: Cluster): nat {
    if nodes == [] then 0 else Gap(top.Keys, top, nodes[0]) + Total(top, nodes[1..])
  }

  lemma {:induction false} TotalUpdates(top: Table, nodes: Cluster, i: nat, t: Table)
    requires i < |nodes|
    ensures Total(top, nodes[i := t]) + Gap(top.Keys, top, nodes[i]) == Total(top, nodes) + Gap(top.Keys, top, t)
    decreases |nodes|
  {
    if i > 0 {
      TotalUpdates(top, nodes[1..], i - 1, t);
      assert nodes[i := t][1..] == nodes[1..][i - 1 := t];
    } else {
      assert nodes[i := t][1..] == nodes[1..];
    }
  }

  /** The maximum over the cluster, name by name. */
  function JoinAll(nodes: Cluster): Table {
    if nodes == [] then map[] else Join(nodes[0], JoinAll(nodes[1..]))
  }

  lemma {:induction false} JoinAllIsMaximum(nodes: Cluster, n: Name)
    ensures forall i :: 0 <= i < |nodes| ==> Gen(nodes[i], n) <= Gen(JoinAll(nodes), n)
    ensures Gen(JoinAll(nodes), n) == 0 || exists i :: 0 <= i < |nodes| && Gen(nodes[i], n) == Gen(JoinAll(nodes), n)
  {
    if nodes != [] {
      JoinAllIsMaximum(nodes[1..], n);
      var top, rest := JoinAll(nodes), JoinAll(nodes[1..]);
      assert Gen(top, n) == Max(Gen(nodes[0], n), Gen(rest, n));
      forall i | 0 <= i < |nodes| ensures Gen(nodes[i], n) <= Gen(top, n) {
        if i > 0 { assert nodes[1..][i - 1] == nodes[i]; }
      }
      if Gen(top, n) > Gen(nodes[0], n) {
        var i :| 0 <= i < |nodes[1..]| && Gen(nodes[1..][i], n) == Gen(rest, n);
        assert nodes[i + 1] == nodes[1..][i];
      }
    }
  }

  ghost predicate Under(nodes: Cluster, top: Table) { forall i :: 0 <= i < |nodes| ==> AtMost(nodes[i], top) }

  /** A peer link with the direction the digest travels, and the round it was sent in. */
  datatype Hop = Hop(sender: nat, receiver: nat, round: nat)

  ghost predicate Step(nodes: Cluster, h: Hop, nodes': Cluster) {
    && h.sender < |nodes| == |nodes'| && h.receiver < |nodes| && h.sender != h.receiver
    && Exchange(nodes[h.sender], nodes[h.receiver], h.round, nodes'[h.sender], nodes'[h.receiver])
    && nodes' == nodes[h.sender := nodes'[h.sender]][h.receiver := nodes'[h.receiver]]
  }

  /** An exchange carrying a whole table between two nodes that disagree. */
  ghost predicate Productive(nodes: Cluster, h: Hop, nodes': Cluster) {
    Step(nodes, h, nodes') && |Nonzero(nodes[h.sender])| <= M && !Agree(nodes[h.sender], nodes[h.receiver])
  }

  lemma StepRises(nodes: Cluster, h: Hop, nodes': Cluster, top: Table)
    requires Step(nodes, h, nodes') && Under(nodes, top)
    ensures Under(nodes', top) && forall i :: 0 <= i < |nodes| ==> AtMost(nodes[i], nodes'[i])
  {
    hide Exchange;
    ExchangeBounds(nodes[h.sender], nodes[h.receiver], h.round, nodes'[h.sender], nodes'[h.receiver], top);
  }

  /** Truncated reply or not, every such exchange brings the cluster strictly closer. */
  lemma ProductiveStepDecreases(nodes: Cluster, h: Hop, nodes': Cluster, top: Table)
    requires Productive(nodes, h, nodes') && Under(nodes, top)
    ensures Total(top, nodes') < Total(top, nodes)
  {
    hide Exchange, Total, Gap;
    var a, b, a', b' := nodes[h.sender], nodes[h.receiver], nodes'[h.sender], nodes'[h.receiver];
    StepRises(nodes, h, nodes', top);
    var n := FullExchangeProgress(a, b, h.round, a', b');
    assert Gen(top, n) > 0 && n in top.Keys;
    GapShrinks(top.Keys, top, a, a');
    GapShrinks(top.Keys, top, b, b');
    if Gen(a', n) > Gen(a, n) {
      GapShrinksStrictly(top.Keys, top, a, a', n);
    } else {
      GapShrinksStrictly(top.Keys, top, b, b', n);
    }
    TotalUpdates(top, nodes, h.sender, a');
    TotalUpdates(top, nodes[h.sender := a'], h.receiver, b');
  }

  ghost predicate RunAt(run: seq<Cluster>, hops: seq<Hop>, k: nat)
    requires |run| == |hops| + 1 && k < |hops|
  {
    Productive(run[k], hops[k], run[k + 1])
  }

  /** A run of productive exchanges, in any order, between any peers. */
  ghost predicate Run(run: seq<Cluster>, hops: seq<Hop>) {
    |run| == |hops| + 1 && forall k :: 0 <= k < |hops| ==> RunAt(run, hops, k)
  }

  lemma {:induction false} RunBounded(run: seq<Cluster>, hops: seq<Hop>, top: Table)
    requires Run(run, hops) && Under(run[0], top)
    ensures |hops| + Total(top, run[|hops|]) <= Total(top, run[0])
    ensures |run[|hops|]| == |run[0]| && Under(run[|hops|], top)
    ensures forall i :: 0 <= i < |run[0]| ==> AtMost(run[0][i], run[|hops|][i])
    decreases |hops|
  {
    hide Exchange, Total;
    if hops != [] {
      var last := |hops| - 1;
      var front, before := hops[..last], run[..|hops|];
      forall k | 0 <= k < last ensures RunAt(before, front, k) { assert RunAt(run, hops, k); }
      RunBounded(before, front, top);
      assert RunAt(run, hops, last);
      ProductiveStepDecreases(run[last], hops[last], run[last + 1], top);
      StepRises(run[last], hops[last], run[last + 1], top);
    }
  }

  /** No cut separates the nodes: some link crosses every proper part. */
  ghost predicate Connected(size: nat, links: set<(nat, nat)>) {
    && (forall l :: l in links ==> l.0 < size && l.1 < size)
    && forall part: set<nat> :: 0 in part && (exists i :: 0 <= i < size && i !in part) ==>
         exists l :: l in links && (l.0 in part <==> l.1 !in part)
  }

  /** Nothing left to exchange: every link joins nodes that agree. */
  ghost predicate Quiet(nodes: Cluster, links: set<(nat, nat)>) {
    forall l :: l in links && l.0 < |nodes| && l.1 < |nodes| ==> Agree(nodes[l.0], nodes[l.1])
  }

  lemma QuietMeansEqual(nodes: Cluster, links: set<(nat, nat)>, i: nat)
    requires Connected(|nodes|, links) && Quiet(nodes, links) && i < |nodes|
    ensures Agree(nodes[0], nodes[i])
  {
    var part := set k: nat | k < |nodes| && Agree(nodes[0], nodes[k]);
    assert Agree(nodes[0], nodes[0]) && 0 in part;
    if i !in part {
      var l :| l in links && (l.0 in part <==> l.1 !in part);
    }
  }

  /** Anti-entropy converges: no run of productive exchanges is longer than the initial gap, and a
      run that can go no further leaves every node of a connected cluster at the maximum of what
      the nodes held at the start. */
  lemma GossipConverges(run: seq<Cluster>, hops: seq<Hop>, links: set<(nat, nat)>)
    requires Run(run, hops) && |run[0]| > 0
    ensures |hops| <= Total(JoinAll(run[0]), run[0])
    ensures Connected(|run[0]|, links) && Quiet(run[|hops|], links) ==>
      forall i :: 0 <= i < |run[|hops|]| ==> Agree(run[|hops|][i], JoinAll(run[0]))
  {
    hide Exchange, Total;
    var first, last, top := run[0], run[|hops|], JoinAll(run[0]);
    forall n ensures forall i :: 0 <= i < |first| ==> Gen(first[i], n) <= Gen(top, n) { JoinAllIsMaximum(first, n); }
    RunBounded(run, hops, top);
    if Connected(|first|, links) && Quiet(last, links) {
      forall i | 0 <= i < |last| ensures Agree(last[i], top) {
        forall n ensures Gen(last[i], n) == Gen(top, n) {
          JoinAllIsMaximum(first, n);
          if Gen(top, n) > 0 {
            var k :| 0 <= k < |first| && Gen(first[k], n) == Gen(top, n);
            QuietMeansEqual(last, links, i);
            QuietMeansEqual(last, links, k);
            assert AtMost(first[k], last[k]);
            assert Gen(first[k], n) <= Gen(last[k], n) && Gen(last[k], n) == Gen(last[0], n) == Gen(last[i], n);
          }
          assert AtMost(last[i], top);
        }
      }
    }
  }

  /** While two peers disagree and the cluster's tags fit in one message there is a productive
      exchange to make, so such a run stops only at agreement. */
  lemma DisagreementProceeds(nodes: Cluster, h: Hop) returns (nodes': Cluster)
    requires h.sender < |nodes| && h.receiver < |nodes| && h.sender != h.receiver
    requires |Nonzero(JoinAll(nodes))| <= M && !Agree(nodes[h.sender], nodes[h.receiver])
    ensures Productive(nodes, h, nodes')
  {
    hide Exchange;
    var a, top := nodes[h.sender], JoinAll(nodes);
    var a', b' := ExchangeExists(a, nodes[h.receiver], h.round);
    nodes' := nodes[h.sender := a'][h.receiver := b'];
    forall n | n in Nonzero(a).Keys ensures n in Nonzero(top).Keys { JoinAllIsMaximum(nodes, n); }
    SubsetSize(Nonzero(a).Keys, Nonzero(top).Keys);
    assert |Nonzero(a)| == |Nonzero(a).Keys| && |Nonzero(top)| == |Nonzero(top).Keys|;
  }

  lemma {:induction false} SubsetSize<T>(a: set<T>, b: set<T>)
    requires a <= b
    ensures |a| <= |b|
    decreases |a|
  {
    if a != {} {
      var n :| n in a;
      SubsetSize(a - {n}, b - {n});
    }
  }
}
