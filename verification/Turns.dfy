/** Whole clusters at any registry size: windows offered over every link, in any interleaving, by a
    network that loses, repeats and reorders. */
module Turns {
  import opened Core
  import opened TagTable
  import opened Gossip
  import opened Convergence
  import opened Sweep
  import opened C = Cluster
  import A = AntiEntropy
  import Commands
  import Store

  type Link = (nat, nat)

  // -- Bounds --------------------------------------------------------------------------------

  ghost predicate EntriesUnder(entries: seq<TagGeneration>, top: Table) {
    forall e :: e in entries ==> e.generation <= Gen(top, e.name)
  }

  /** Nothing held or in flight is above `top`. */
  ghost predicate Bounded(s: State, top: Table) {
    A.Under(s.nodes, top) && forall m :: m in s.net ==> EntriesUnder(m.entries, top)
  }

  /** Every message is covered by what some node holds: true of an empty network, and kept by every
      step, since what is sent is held by its sender. */
  ghost predicate Backed(s: State) { Bounded(s, A.JoinAll(s.nodes)) }

  lemma JoinCovers(nodes: seq<Table>)
    ensures A.Under(nodes, A.JoinAll(nodes))
  {
    forall n ensures forall i :: 0 <= i < |nodes| ==> Gen(nodes[i], n) <= Gen(A.JoinAll(nodes), n) {
      A.JoinAllIsMaximum(nodes, n);
    }
  }

  lemma JoinRises(a: seq<Table>, b: seq<Table>)
    requires |a| == |b| && forall i :: 0 <= i < |a| ==> AtMost(a[i], b[i])
    ensures AtMost(A.JoinAll(a), A.JoinAll(b))
  {
    forall n ensures Gen(A.JoinAll(a), n) <= Gen(A.JoinAll(b), n) {
      A.JoinAllIsMaximum(a, n);
      A.JoinAllIsMaximum(b, n);
      if Gen(A.JoinAll(a), n) > 0 {
        var i :| 0 <= i < |a| && Gen(a[i], n) == Gen(A.JoinAll(a), n);
        assert AtMost(a[i], b[i]);
      }
    }
  }

  lemma UnderAt(nodes: seq<Table>, top: Table, i: nat)
    requires A.Under(nodes, top) && i < |nodes|
    ensures AtMost(nodes[i], top)
  {
  }

  lemma SetUnder(nodes: seq<Table>, i: nat, t: Table, top: Table)
    requires A.Under(nodes, top) && i < |nodes| && AtMost(t, top)
    ensures A.Under(nodes[i := t], top)
  {
  }

  lemma DigestUnder(t: Table, round: nat, full: bool, entries: seq<TagGeneration>, top: Table)
    requires DigestOf(t, round, full, entries) && AtMost(t, top)
    ensures EntriesUnder(entries, top)
  {
    hide DigestOf;
    forall e | e in entries ensures e.generation <= Gen(top, e.name) { DigestIsHonest(t, round, full, entries, e); }
  }

  lemma ReplyUnder(t: Table, full: bool, entries: seq<TagGeneration>, behind: seq<TagGeneration>, top: Table)
    requires ReplyOf(t, full, entries, behind) && AtMost(t, top)
    ensures EntriesUnder(behind, top)
  {
    hide ReplyOf;
    forall e | e in behind ensures e.generation <= Gen(top, e.name) { ReplyIsHonest(t, full, entries, behind, e); }
  }

  lemma RegisterUnder(t: Table, n: Name, top: Table)
    requires AtMost(t, top) && n !in t
    ensures AtMost(With(t, n, 0), top)
  {
    forall k ensures Gen(With(t, n, 0), k) <= Gen(top, k) {
      if k != n { assert Gen(With(t, n, 0), k) == Gen(t, k); }
    }
  }

  /** Without an invalidation nothing passes a common bound. */
  lemma StepBounded(s: State, a: Action, s': State, top: Table)
    requires Next(s, a, s') && Bounded(s, top) && !a.Bump?
    ensures Bounded(s', top)
  {
    hide DigestOf, ReplyOf, MergeAll, EntriesUnder, A.Under, AtMost;
    match a
    case Register(i, n) =>
      UnderAt(s.nodes, top, i);
      RegisterUnder(s.nodes[i], n, top);
      SetUnder(s.nodes, i, With(s.nodes[i], n, 0), top);
    case Offer(i, p, round, full, entries) =>
      UnderAt(s.nodes, top, i);
      DigestUnder(s.nodes[i], round, full, entries, top);
    case Serve(m, behind) =>
      UnderAt(s.nodes, top, m.receiver);
      ReplyUnder(s.nodes[m.receiver], m.full, m.entries, behind, top);
      MergeUnder(s.nodes[m.receiver], m.entries, top);
      SetUnder(s.nodes, m.receiver, MergeAll(s.nodes[m.receiver], m.entries), top);
    case Learn(m) =>
      UnderAt(s.nodes, top, m.receiver);
      MergeUnder(s.nodes[m.receiver], m.entries, top);
      SetUnder(s.nodes, m.receiver, MergeAll(s.nodes[m.receiver], m.entries), top);
  }

  lemma MergeUnder(t: Table, entries: seq<TagGeneration>, top: Table)
    requires AtMost(t, top) && EntriesUnder(entries, top)
    ensures AtMost(MergeAll(t, entries), top)
  {
    MergeBelow(t, entries, top);
  }

  lemma Widens(s: State, low: Table, high: Table)
    requires Bounded(s, low) && AtMost(low, high)
    ensures Bounded(s, high)
  {
    forall i | 0 <= i < |s.nodes| ensures AtMost(s.nodes[i], high) { assert AtMost(s.nodes[i], low); }
    forall m | m in s.net ensures EntriesUnder(m.entries, high) { assert EntriesUnder(m.entries, low); }
  }

  lemma StepBacked(s: State, a: Action, s': State)
    requires Next(s, a, s') && Backed(s)
    ensures Backed(s')
  {
    hide DigestOf, ReplyOf, MergeAll, A.JoinAll;
    var low, high := A.JoinAll(s.nodes), A.JoinAll(s'.nodes);
    StepRises(s, a, s');
    JoinRises(s.nodes, s'.nodes);
    Widens(s, low, high);
    JoinCovers(s'.nodes);
    if a.Bump? {
      var i, g := a.node, Raised(s.nodes[a.node], a.name);
      assert AtMost(s'.nodes[i], high) && Gen(s'.nodes[i], a.name) == g;
      assert EntriesUnder([TagGeneration(a.name, g)], high);
    } else {
      StepBounded(s, a, s', high);
    }
  }

  /** Over every run from an empty network, invalidations included, whatever is in flight is held by
      some node. */
  lemma {:induction false} RunBacked(run: seq<State>, actions: seq<Action>, j: nat)
    requires Run(run, actions) && j < |run| && (Backed(run[0]) || run[0].net == {})
    ensures Backed(run[j])
  {
    hide Next, A.JoinAll;
    if j == 0 {
      JoinCovers(run[0].nodes);
    } else {
      RunBacked(run, actions, j - 1);
      assert At(run, actions, j - 1);
      StepBacked(run[j - 1], actions[j - 1], run[j]);
    }
  }

  lemma {:induction false} RunBounded(run: seq<State>, actions: seq<Action>, top: Table, j: nat)
    requires Run(run, actions) && Bounded(run[0], top) && j < |run|
    requires forall a :: a in actions ==> !a.Bump?
    ensures Bounded(run[j], top)
  {
    hide Next, Bounded;
    if j > 0 {
      RunBounded(run, actions, top, j - 1);
      assert At(run, actions, j - 1);
      StepBounded(run[j - 1], actions[j - 1], run[j], top);
    }
  }

  // -- A turn --------------------------------------------------------------------------------

  /** Between steps `p` and `q` the round's digest went out over the link and was served. */
  ghost predicate Arrives(actions: seq<Action>, p: nat, q: nat, l: Link, round: nat)
    requires q <= |actions|
  {
    exists k, j :: p <= k < j < q && Served(actions, k, j, l, round)
  }

  ghost predicate Served(actions: seq<Action>, k: nat, j: nat, l: Link, round: nat)
    requires k < |actions| && j < |actions|
  {
    && actions[k].Offer? && actions[k].node == l.0 && actions[k].peer == l.1 && actions[k].round == round
    && actions[j].Serve? && actions[j].message == Request(l.0, l.1, actions[k].full, actions[k].entries)
  }

  /** Rounds enough for the sender's whole registry arrived over the link, numbered one after
      another but interleaved with anything else, in any order. */
  ghost predicate TurnIn(run: seq<State>, actions: seq<Action>, p: nat, q: nat, l: Link)
    requires |run| == |actions| + 1 && p <= q < |run|
  {
    && l.0 < |run[p].nodes| && l.1 < |run[p].nodes|
    && exists first: nat, count: nat :: Spans(run, actions, p, q, l, first, count)
  }

  ghost predicate Spans(run: seq<State>, actions: seq<Action>, p: nat, q: nat, l: Link, first: nat, count: nat)
    requires |run| == |actions| + 1 && p <= q < |run| && l.0 < |run[p].nodes|
  {
    && |Nonzero(run[p].nodes[l.0])| <= count * M
    && forall round :: first <= round < first + count ==> Arrives(actions, p, q, l, round)
  }

  lemma NamesRise(t: Table, u: Table)
    requires AtMost(t, u)
    ensures Names(t) <= Names(u)
  {
    forall n | n in Names(t) ensures n in Names(u) { assert Gen(t, n) <= Gen(u, n); }
  }

  /** While a node learns no name between `p` and `q`, it has the same names at every step between. */
  lemma NamesBetween(run: seq<State>, actions: seq<Action>, p: nat, k: nat, q: nat, i: nat)
    requires Run(run, actions) && p <= k <= q < |run| && i < |run[p].nodes|
    ensures |run[p].nodes| == |run[k].nodes| == |run[q].nodes|
    ensures Names(run[p].nodes[i]) <= Names(run[q].nodes[i])
    ensures Names(run[p].nodes[i]) == Names(run[q].nodes[i]) ==> Names(run[k].nodes[i]) == Names(run[p].nodes[i])
  {
    hide Run, Names, AtMost;
    RunLater(run, actions, p, k);
    RunLater(run, actions, k, q);
    NamesRise(run[p].nodes[i], run[k].nodes[i]);
    NamesRise(run[k].nodes[i], run[q].nodes[i]);
  }

  /** One round's arrival lifts the receiver to what the sender held when the stretch began, for the
      name the round was due to show. */
  lemma RoundLifts(run: seq<State>, actions: seq<Action>, p: nat, q: nat, l: Link, round: nat,
                   known: seq<TagGeneration>, x: nat)
    requires Run(run, actions) && p <= q < |run| && l.0 < |run[p].nodes| && l.1 < |run[p].nodes|
    requires |run[q].nodes| == |run[p].nodes| && Names(run[p].nodes[l.0]) == Names(run[q].nodes[l.0])
    requires Roster(run[p].nodes[l.0], known)
    requires x < |known| && Shows(|known|, round, x) && Arrives(actions, p, q, l, round)
    ensures Gen(run[p].nodes[l.0], known[x].name) <= Gen(run[q].nodes[l.1], known[x].name)
  {
    hide Roster, Names, DigestOf, Shows, ReplyOf, MergeAll;
    var k, j :| p <= k < j < q && Served(actions, k, j, l, round);
    assert At(run, actions, k);
    NamesBetween(run, actions, p, k, q, l.0);
    RunLater(run, actions, p, k);
    var n := known[x].name;
    DigestShows(run[k].nodes[l.0], round, actions[k].full, actions[k].entries, known, run[p].nodes[l.0], x);
    DeliveredForGood(run, actions, j, q, TagGeneration(n, Gen(run[k].nodes[l.0], n)));
    assert AtMost(run[p].nodes[l.0], run[k].nodes[l.0]);
  }

  /** A turn delivers: whatever else happens meanwhile, a receiver ends above everything the sender
      held when the turn began, if the sender has learned no name since. */
  lemma TurnDelivers(run: seq<State>, actions: seq<Action>, p: nat, q: nat, l: Link)
    requires Run(run, actions) && p <= q < |run| && TurnIn(run, actions, p, q, l)
    requires |run[q].nodes| == |run[p].nodes| && Names(run[p].nodes[l.0]) == Names(run[q].nodes[l.0])
    ensures AtMost(run[p].nodes[l.0], run[q].nodes[l.1])
  {
    hide At, Arrives, Shows;
    var first: nat, count: nat :| Spans(run, actions, p, q, l, first, count);
    var a := run[p].nodes[l.0];
    var known := SomeRoster(a);
    ListingSize(known, Nonzero(a));
    forall n ensures Gen(a, n) <= Gen(run[q].nodes[l.1], n) {
      if Gen(a, n) > 0 {
        assert TagGeneration(n, a[n]) in known;
        var x :| 0 <= x < |known| && known[x] == TagGeneration(n, a[n]);
        var round := WindowsCover(|known|, count, first, x);
        RoundLifts(run, actions, p, q, l, round, known, x);
      }
    }
  }

  /** Two nodes whose turns towards each other overlap as they may both end above all either began
      with. */
  lemma BothWaysMeet(run: seq<State>, actions: seq<Action>, p: nat, q: nat, l: Link)
    requires Run(run, actions) && p <= q < |run| && |run[q].nodes| == |run[p].nodes|
    requires TurnIn(run, actions, p, q, l) && TurnIn(run, actions, p, q, (l.1, l.0))
    requires Names(run[p].nodes[l.0]) == Names(run[q].nodes[l.0])
    requires Names(run[p].nodes[l.1]) == Names(run[q].nodes[l.1])
    ensures
      var joined := Join(run[p].nodes[l.0], run[p].nodes[l.1]);
      AtMost(joined, run[q].nodes[l.0]) && AtMost(joined, run[q].nodes[l.1])
  {
    hide Run, Spans, Names;
    TurnDelivers(run, actions, p, q, l);
    TurnDelivers(run, actions, p, q, (l.1, l.0));
    RunLater(run, actions, p, q);
    assert AtMost(run[p].nodes[l.0], run[q].nodes[l.0]) && AtMost(run[p].nodes[l.1], run[q].nodes[l.1]);
  }

  // -- The whole cluster ---------------------------------------------------------------------

  /** The nodes that hold at least everything in `t`. */
  ghost function Holders(nodes: seq<Table>, t: Table): set<nat> {
    set i: nat | i < |nodes| && AtMost(t, nodes[i])
  }

  function Upto(n: nat): (r: set<nat>)
    ensures |r| == n && forall i: nat :: i in r <==> i < n
  {
    if n == 0 then {} else Upto(n - 1) + {n - 1}
  }

  /** How many names the nodes know, counted node by node. */
  function NameCount(nodes: seq<Table>): nat {
    if nodes == [] then 0 else |Names(nodes[0])| + NameCount(nodes[1..])
  }

  lemma {:induction false} NameCountRises(a: seq<Table>, b: seq<Table>)
    requires |a| == |b| && forall i :: 0 <= i < |a| ==> Names(a[i]) <= Names(b[i])
    ensures NameCount(a) <= NameCount(b)
    ensures (exists i :: 0 <= i < |a| && Names(a[i]) != Names(b[i])) ==> NameCount(a) < NameCount(b)
  {
    if a != [] {
      A.SubsetSize(Names(a[0]), Names(b[0]));
      if n :| n in Names(b[0]) && n !in Names(a[0]) { A.SubsetSize(Names(a[0]), Names(b[0]) - {n}); }
      NameCountRises(a[1..], b[1..]);
      forall i | 0 < i < |a| && Names(a[i]) != Names(b[i]) ensures NameCount(a[1..]) < NameCount(b[1..]) {
        assert a[1..][i - 1] == a[i] && b[1..][i - 1] == b[i];
      }
    }
  }

  lemma {:induction false} NameCountBound(nodes: seq<Table>, all: set<Name>)
    requires forall i :: 0 <= i < |nodes| ==> Names(nodes[i]) <= all
    ensures NameCount(nodes) <= |nodes| * |all|
  {
    if nodes != [] {
      A.SubsetSize(Names(nodes[0]), all);
      NameCountBound(nodes[1..], all);
      assert |nodes| * |all| == |all| + |nodes[1..]| * |all|;
    }
  }

  /** A stretch of the run in which every link carried a turn each way. */
  ghost predicate Stretch(run: seq<State>, actions: seq<Action>, links: set<Link>, p: nat, q: nat) {
    && |run| == |actions| + 1 && p <= q < |run|
    && forall l :: l in links ==> TurnIn(run, actions, p, q, l) && TurnIn(run, actions, p, q, (l.1, l.0))
  }

  ghost predicate StretchAt(run: seq<State>, actions: seq<Action>, links: set<Link>, cuts: seq<nat>, i: nat)
    requires i + 1 < |cuts|
  {
    Stretch(run, actions, links, cuts[i], cuts[i + 1])
  }

  /** The run cut into consecutive stretches. */
  ghost predicate Stretches(run: seq<State>, actions: seq<Action>, links: set<Link>, cuts: seq<nat>) {
    && |cuts| > 0 && (forall i :: 0 <= i < |cuts| ==> cuts[i] < |run|)
    && forall i :: 0 <= i < |cuts| - 1 ==> StretchAt(run, actions, links, cuts, i)
  }

  /** What is done so far: who holds `t`, and how many names are known where. */
  ghost function Done(s: State, t: Table): nat { |Holders(s.nodes, t)| + NameCount(s.nodes) }

  /** Nothing of it is ever lost. */
  lemma DoneKept(run: seq<State>, actions: seq<Action>, p: nat, q: nat, t: Table)
    requires Run(run, actions) && p <= q < |run|
    ensures |run[p].nodes| == |run[q].nodes| && Holders(run[p].nodes, t) <= Holders(run[q].nodes, t)
    ensures NameCount(run[p].nodes) <= NameCount(run[q].nodes) && Done(run[p], t) <= Done(run[q], t)
    ensures (exists i :: 0 <= i < |run[p].nodes| && Names(run[p].nodes[i]) != Names(run[q].nodes[i])) ==>
              Done(run[p], t) < Done(run[q], t)
  {
    hide Next, Names, NameCount;
    RunLater(run, actions, p, q);
    var a, b := run[p].nodes, run[q].nodes;
    forall i | 0 <= i < |a| ensures Names(a[i]) <= Names(b[i]) { NamesRise(a[i], b[i]); }
    NameCountRises(a, b);
    forall i | i in Holders(a, t) ensures i in Holders(b, t) { assert AtMost(a[i], b[i]); }
    A.SubsetSize(Holders(a, t), Holders(b, t));
  }

  lemma Crossing(size: nat, links: set<Link>, part: set<nat>, k: nat) returns (l: Link)
    requires A.Connected(size, links) && k in part && k < size && exists i :: 0 <= i < size && i !in part
    ensures l in links && (l.0 in part <==> l.1 !in part) && l.0 < size && l.1 < size
  {
    if 0 in part {
      l :| l in links && (l.0 in part <==> l.1 !in part);
    } else {
      var rest := Upto(size) - part;
      assert k !in rest && 0 in rest;
      l :| l in links && (l.0 in rest <==> l.1 !in rest);
      assert l.0 < size && l.1 < size;
    }
  }

  /** A stretch that teaches no node a name hands `t` on to a node that did not hold it. */
  lemma StableGrows(run: seq<State>, actions: seq<Action>, links: set<Link>, p: nat, q: nat, t: Table, k: nat)
    requires Run(run, actions) && Stretch(run, actions, links, p, q) && A.Connected(|run[p].nodes|, links)
    requires |run[q].nodes| == |run[p].nodes|
    requires forall i :: 0 <= i < |run[p].nodes| ==> Names(run[p].nodes[i]) == Names(run[q].nodes[i])
    requires k in Holders(run[p].nodes, t) && exists i :: 0 <= i < |run[p].nodes| && i !in Holders(run[p].nodes, t)
    ensures Done(run[p], t) < Done(run[q], t)
  {
    hide At, TurnIn, Names, NameCount;
    var part := Holders(run[p].nodes, t);
    var l := Crossing(|run[p].nodes|, links, part, k);
    var way := if l.0 in part then l else (l.1, l.0);
    TurnDelivers(run, actions, p, q, way);
    DoneKept(run, actions, p, q, t);
    assert AtMost(run[p].nodes[way.0], run[q].nodes[way.1]);
    assert way.1 in Holders(run[q].nodes, t) - part;
    A.SubsetSize(part + {way.1}, Holders(run[q].nodes, t));
  }

  /** So every stretch gets something done, until all hold `t`. */
  lemma StretchGrows(run: seq<State>, actions: seq<Action>, links: set<Link>, p: nat, q: nat, t: Table, k: nat)
    requires Run(run, actions) && Stretch(run, actions, links, p, q) && A.Connected(|run[p].nodes|, links)
    requires k in Holders(run[p].nodes, t)
    ensures |run[q].nodes| == |run[p].nodes| && k in Holders(run[q].nodes, t)
    ensures Done(run[p], t) < Done(run[q], t) || Holders(run[q].nodes, t) == Upto(|run[q].nodes|)
  {
    hide At, TurnIn, Names, NameCount;
    DoneKept(run, actions, p, q, t);
    var size := |run[p].nodes|;
    if forall i :: 0 <= i < size ==> i in Holders(run[p].nodes, t) {
      assert Holders(run[q].nodes, t) == Upto(size);
    } else if forall i :: 0 <= i < size ==> Names(run[p].nodes[i]) == Names(run[q].nodes[i]) {
      StableGrows(run, actions, links, p, q, t, k);
    }
  }

  lemma {:induction false} StretchesGrow(run: seq<State>, actions: seq<Action>, links: set<Link>, cuts: seq<nat>,
                                         i: nat, t: Table, k: nat)
    requires Run(run, actions) && Stretches(run, actions, links, cuts) && i < |cuts|
    requires A.Connected(|run[cuts[0]].nodes|, links) && k in Holders(run[cuts[0]].nodes, t)
    ensures cuts[i] < |run| && |run[cuts[i]].nodes| == |run[cuts[0]].nodes| && k in Holders(run[cuts[i]].nodes, t)
    ensures Done(run[cuts[i]], t) >= Done(run[cuts[0]], t) + i
         || Holders(run[cuts[i]].nodes, t) == Upto(|run[cuts[i]].nodes|)
  {
    hide At, A.Connected, Holders, Done;
    if i > 0 {
      StretchesGrow(run, actions, links, cuts, i - 1, t, k);
      assert StretchAt(run, actions, links, cuts, i - 1);
      StretchGrows(run, actions, links, cuts[i - 1], cuts[i], t, k);
      if Holders(run[cuts[i - 1]].nodes, t) == Upto(|run[cuts[i - 1]].nodes|) {
        AllHold(run, actions, cuts[i - 1], cuts[i], t);
      }
    }
  }

  lemma AllHold(run: seq<State>, actions: seq<Action>, p: nat, q: nat, t: Table)
    requires Run(run, actions) && p <= q < |run| && Holders(run[p].nodes, t) == Upto(|run[p].nodes|)
    ensures |run[q].nodes| == |run[p].nodes| && Holders(run[q].nodes, t) == Upto(|run[q].nodes|)
  {
    DoneKept(run, actions, p, q, t);
  }

  /** Stretches enough for the names known at the end. */
  ghost predicate Enough(run: seq<State>, cuts: seq<nat>)
    requires |cuts| > 0 && cuts[|cuts| - 1] < |run|
  {
    var end := run[cuts[|cuts| - 1]].nodes;
    |cuts| >= |end| * (|Names(A.JoinAll(end))| + 1)
  }

  /** With stretches enough, what a node held when they began is held by all. */
  lemma ReachesAll(run: seq<State>, actions: seq<Action>, links: set<Link>, cuts: seq<nat>, t: Table, k: nat)
    requires Run(run, actions) && Stretches(run, actions, links, cuts) && Enough(run, cuts)
    requires A.Connected(|run[cuts[0]].nodes|, links) && k in Holders(run[cuts[0]].nodes, t)
    ensures |run[cuts[|cuts| - 1]].nodes| == |run[cuts[0]].nodes|
    ensures Holders(run[cuts[|cuts| - 1]].nodes, t) == Upto(|run[cuts[0]].nodes|)
  {
    hide At, A.Connected, A.JoinAll, Names, NameCount, StretchAt, Upto;
    var last := |cuts| - 1;
    StretchesGrow(run, actions, links, cuts, last, t, k);
    var end := run[cuts[last]].nodes;
    if Done(run[cuts[last]], t) >= Done(run[cuts[0]], t) + last {
      A.SubsetSize({k}, Holders(run[cuts[0]].nodes, t));
      CountBounded(end);
      NoRoomLeft(|end|, |Names(A.JoinAll(end))|, last, |Holders(end, t)|, NameCount(end));
      HoldersFit(end, t);
    }
  }

  lemma StartReaches(run: seq<State>, actions: seq<Action>, links: set<Link>, cuts: seq<nat>, k: nat)
    requires Run(run, actions) && Stretches(run, actions, links, cuts) && Enough(run, cuts)
    requires A.Connected(|run[0].nodes|, links) && k < |run[0].nodes|
    ensures |run[cuts[|cuts| - 1]].nodes| == |run[0].nodes|
    ensures Holders(run[cuts[|cuts| - 1]].nodes, run[0].nodes[k]) == Upto(|run[0].nodes|)
  {
    hide At, A.Connected, A.JoinAll, Names, NameCount, StretchAt, Upto, Enough;
    var t := run[0].nodes[k];
    assert k in Holders(run[0].nodes, t);
    DoneKept(run, actions, 0, cuts[0], t);
    ReachesAll(run, actions, links, cuts, t, k);
  }

  lemma NoRoomLeft(size: nat, names: nat, last: nat, holders: nat, known: nat)
    requires last + 1 >= size * (names + 1) && holders + known >= 1 + last && known <= size * names
    ensures holders >= size
  {
    assert size * (names + 1) == size * names + size;
  }

  lemma HoldersFit(nodes: seq<Table>, t: Table)
    ensures |Holders(nodes, t)| <= |nodes|
    ensures |Holders(nodes, t)| == |nodes| ==> Holders(nodes, t) == Upto(|nodes|)
  {
    var all := Upto(|nodes|);
    A.SubsetSize(Holders(nodes, t), all);
    if i :| i in all && i !in Holders(nodes, t) { A.SubsetSize(Holders(nodes, t), all - {i}); }
  }

  lemma CountBounded(nodes: seq<Table>)
    ensures NameCount(nodes) <= |nodes| * |Names(A.JoinAll(nodes))|
  {
    hide A.JoinAll, Names, NameCount;
    JoinCovers(nodes);
    forall i | 0 <= i < |nodes| ensures Names(nodes[i]) <= Names(A.JoinAll(nodes)) {
      assert AtMost(nodes[i], A.JoinAll(nodes));
      NamesRise(nodes[i], A.JoinAll(nodes));
    }
    NameCountBound(nodes, Names(A.JoinAll(nodes)));
  }

  /** Every registry size, every interleaving: in a connected cluster, once every link has carried
      enough turns each way, every node holds at least everything any node held when the run began,
      however the rounds mixed, whatever was lost, repeated or reordered besides, and though nodes go
      on invalidating meanwhile. */
  lemma InvalidationsSpread(run: seq<State>, actions: seq<Action>, links: set<Link>, cuts: seq<nat>, i: nat)
    requires Run(run, actions) && Stretches(run, actions, links, cuts) && Enough(run, cuts)
    requires A.Connected(|run[0].nodes|, links) && i < |run[0].nodes|
    ensures |run[cuts[|cuts| - 1]].nodes| == |run[0].nodes|
    ensures AtMost(A.JoinAll(run[0].nodes), run[cuts[|cuts| - 1]].nodes[i])
  {
    hide At, A.Connected, A.JoinAll, Names, StretchAt, Enough;
    var nodes, last := run[0].nodes, cuts[|cuts| - 1];
    StartReaches(run, actions, links, cuts, i);
    forall n ensures Gen(A.JoinAll(nodes), n) <= Gen(run[last].nodes[i], n) {
      A.JoinAllIsMaximum(nodes, n);
      if Gen(A.JoinAll(nodes), n) > 0 {
        var k :| 0 <= k < |nodes| && Gen(nodes[k], n) == Gen(A.JoinAll(nodes), n);
        StartReaches(run, actions, links, cuts, k);
        assert i in Upto(|nodes|);
        assert i in Holders(run[last].nodes, nodes[k]);
      }
    }
  }

  /** And if nobody invalidates during the run, all nodes end in agreement, at the maximum of what
      the nodes held when it began. */
  lemma ClusterConverges(run: seq<State>, actions: seq<Action>, links: set<Link>, cuts: seq<nat>, i: nat)
    requires Run(run, actions) && Stretches(run, actions, links, cuts) && Backed(run[0])
    requires forall a :: a in actions ==> !a.Bump?
    requires A.Connected(|run[0].nodes|, links) && i < |run[0].nodes|
    requires |cuts| >= |run[0].nodes| * (|Names(A.JoinAll(run[0].nodes))| + 1)
    ensures |run[cuts[|cuts| - 1]].nodes| == |run[0].nodes|
    ensures Agree(run[cuts[|cuts| - 1]].nodes[i], A.JoinAll(run[0].nodes))
  {
    hide At, A.Connected, A.JoinAll, Names, StretchAt;
    var top, last := A.JoinAll(run[0].nodes), cuts[|cuts| - 1];
    RunLater(run, actions, 0, last);
    RunBounded(run, actions, top, last);
    JoinUnder(run[last].nodes, top);
    NamesRise(A.JoinAll(run[last].nodes), top);
    A.SubsetSize(Names(A.JoinAll(run[last].nodes)), Names(top));
    MoreNames(|run[0].nodes|, |Names(A.JoinAll(run[last].nodes))|, |Names(top)|);
    InvalidationsSpread(run, actions, links, cuts, i);
    assert AtMost(run[last].nodes[i], top);
  }

  lemma JoinUnder(nodes: seq<Table>, top: Table)
    requires A.Under(nodes, top)
    ensures AtMost(A.JoinAll(nodes), top)
  {
    forall n ensures Gen(A.JoinAll(nodes), n) <= Gen(top, n) {
      A.JoinAllIsMaximum(nodes, n);
      if Gen(A.JoinAll(nodes), n) > 0 {
        var i :| 0 <= i < |nodes| && Gen(nodes[i], n) == Gen(A.JoinAll(nodes), n);
        assert AtMost(nodes[i], top);
      }
    }
  }

  lemma MoreNames(size: nat, few: nat, many: nat)
    requires few <= many
    ensures size * (few + 1) <= size * (many + 1)
  {
    assert size * (many + 1) == size * (few + 1) + size * (many - few);
  }

  // -- Invalidations everywhere --------------------------------------------------------------

  /** An invalidation reaches everybody: once every link of a connected cluster has carried enough
      turns each way since, every node is past the generation its node held before it. */
  lemma BumpSpreads(run: seq<State>, actions: seq<Action>, links: set<Link>, cuts: seq<nat>, k: nat, i: nat)
    requires Run(run, actions) && Stretches(run, actions, links, cuts) && Enough(run, cuts)
    requires k < cuts[0] && A.Connected(|run[cuts[0]].nodes|, links)
    requires At(run, actions, k) && actions[k].Bump? && Gen(run[k].nodes[actions[k].node], actions[k].name) < U64_MAX
    requires i < |run[k].nodes|
    ensures |run[cuts[|cuts| - 1]].nodes| == |run[k].nodes|
    ensures Gen(run[cuts[|cuts| - 1]].nodes[i], actions[k].name) > Gen(run[k].nodes[actions[k].node], actions[k].name)
  {
    var from, n := actions[k].node, actions[k].name;
    var g := Gen(run[k].nodes[from], n);
    var t: Table := map[n := g + 1];
    BumpRaises(run[k], from, n, actions[k].peers, run[k + 1], from, n);
    hide At, A.Connected, A.JoinAll, Names, StretchAt, Enough;
    RunLater(run, actions, k, cuts[0]);
    RunLater(run, actions, k + 1, cuts[0]);
    assert AtMost(run[k + 1].nodes[from], run[cuts[0]].nodes[from]);
    assert from in Holders(run[cuts[0]].nodes, t) by { OneName(run[cuts[0]].nodes[from], n, g + 1); }
    ReachesAll(run, actions, links, cuts, t, from);
    assert i in Upto(|run[cuts[0]].nodes|);
    assert AtMost(t, run[cuts[|cuts| - 1]].nodes[i]);
    assert Gen(t, n) == g + 1;
  }

  lemma OneName(t: Table, n: Name, g: u64)
    requires Gen(t, n) >= g
    ensures AtMost(map[n := g], t)
  {
  }

  /** And retires what it names: by then a read on no node finds a record that carries the tag from
      before the invalidation, whatever else it holds and whenever it is read. */
  lemma InvalidatedEverywhere(run: seq<State>, actions: seq<Action>, links: set<Link>, cuts: seq<nat>, k: nat, i: nat,
                              cfg: Store.Config, records: map<Commands.Key, Store.Record>, key: Commands.Key, tag: Store.Tag)
    requires Run(run, actions) && Stretches(run, actions, links, cuts) && Enough(run, cuts)
    requires k < cuts[0] && A.Connected(|run[cuts[0]].nodes|, links)
    requires At(run, actions, k) && actions[k].Bump? && Gen(run[k].nodes[actions[k].node], actions[k].name) < U64_MAX
    requires i < |run[k].nodes| && key in records && tag in records[key].tags
    requires tag.name == actions[k].name && tag.generation <= Gen(run[k].nodes[actions[k].node], actions[k].name)
    ensures i < |run[cuts[|cuts| - 1]].nodes|
    ensures Store.Find(cfg, Store.Contents(records, run[cuts[|cuts| - 1]].nodes[i]), key) == None
  {
    hide At, StretchAt, Enough, A.Connected;
    BumpSpreads(run, actions, links, cuts, k, i);
    assert Store.Gen(run[cuts[|cuts| - 1]].nodes[i], tag.name) > tag.generation;
  }
}
