/** Tag invalidation over an unreliable network, as a step system. */
module Cluster {
  import opened Core
  import opened TagTable
  import opened Gossip
  import opened Convergence

  datatype Message =
    | Request(sender: nat, receiver: nat, full: bool, entries: seq<TagGeneration>)
    | Answer(receiver: nat, entries: seq<TagGeneration>)

  /** `net` holds everything ever sent, and any of it may be delivered at any time, any number of
      times, or never: that is loss, duplication and reordering in one. `bumped` records what
      invalidations produced. */
  datatype State = State(nodes: seq<Table>, net: set<Message>, bumped: set<TagGeneration>)

  datatype Action =
    | Register(node: nat, name: Name)
    | Bump(node: nat, name: Name, peers: set<nat>)
    | Offer(node: nat, peer: nat, round: nat, full: bool, entries: seq<TagGeneration>)
    | Serve(message: Message, behind: seq<TagGeneration>)
    | Learn(message: Message)

  function Raised(t: Table, n: Name): u64
    requires n in t
  {
    Min(t[n] as int + 1, U64_MAX)
  }

  function With(t: Table, n: Name, g: u64): Table { t[n := g] }

  ghost predicate Next(s: State, a: Action, s': State) {
    match a
    case Register(i, n) =>
      i < |s.nodes| && n !in s.nodes[i] && s' == s.(nodes := s.nodes[i := With(s.nodes[i], n, 0)])
    case Bump(i, n, peers) =>
      // The push goes out only once the local bump has committed; a full queue drops it.
      && i < |s.nodes| && n in s.nodes[i]
      && var g: u64 := Raised(s.nodes[i], n);
         s' == State(s.nodes[i := With(s.nodes[i], n, g)],
                     s.net + set p | p in peers :: Request(i, p, false, [TagGeneration(n, g)]),
                     s.bumped + {TagGeneration(n, g)})
    case Offer(i, p, round, full, entries) =>
      && i < |s.nodes| && DigestOf(s.nodes[i], round, full, entries)
      && s' == s.(net := s.net + {Request(i, p, full, entries)})
    case Serve(m, behind) =>
      && m in s.net && m.Request? && m.receiver < |s.nodes|
      && ReplyOf(s.nodes[m.receiver], m.full, m.entries, behind)
      && s' == s.(nodes := s.nodes[m.receiver := MergeAll(s.nodes[m.receiver], m.entries)],
                  net := s.net + {Answer(m.sender, behind)})
    case Learn(m) =>
      && m in s.net && m.Answer? && m.receiver < |s.nodes|
      && s' == s.(nodes := s.nodes[m.receiver := MergeAll(s.nodes[m.receiver], m.entries)])
  }

  ghost predicate TableProduced(t: Table, bumped: set<TagGeneration>) {
    forall n :: Gen(t, n) > 0 ==> TagGeneration(n, Gen(t, n)) in bumped
  }

  ghost predicate EntriesProduced(entries: seq<TagGeneration>, bumped: set<TagGeneration>) {
    forall e :: e in entries && e.generation > 0 ==> e in bumped
  }

  /** Nobody holds, and no message carries, a generation no bump produced. */
  ghost predicate Produced(s: State) {
    && (forall i :: 0 <= i < |s.nodes| ==> TableProduced(s.nodes[i], s.bumped))
    && (forall m :: m in s.net ==> EntriesProduced(m.entries, s.bumped))
  }

  /** A node's view only rises, and bumps are never forgotten. */
  ghost predicate Later(s: State, s': State) {
    && |s.nodes| == |s'.nodes| && s.bumped <= s'.bumped && s.net <= s'.net
    && forall i :: 0 <= i < |s.nodes| ==> AtMost(s.nodes[i], s'.nodes[i])
  }

  lemma StepRises(s: State, a: Action, s': State)
    requires Next(s, a, s')
    ensures Later(s, s')
  {
    hide DigestOf, ReplyOf, MergeAll;
    if a.Serve? || a.Learn? {
      var i, entries := a.message.receiver, a.message.entries;
      forall n ensures Gen(s.nodes[i], n) <= Gen(MergeAll(s.nodes[i], entries), n) {
        MergeAllIsMaximum(s.nodes[i], entries, n);
      }
    }
  }

  lemma MergeProduced(t: Table, entries: seq<TagGeneration>, bumped: set<TagGeneration>)
    requires TableProduced(t, bumped) && EntriesProduced(entries, bumped)
    ensures TableProduced(MergeAll(t, entries), bumped)
  {
    hide MergeAll;
    forall n | Gen(MergeAll(t, entries), n) > 0
      ensures TagGeneration(n, Gen(MergeAll(t, entries), n)) in bumped
    {
      MergeAllIsMaximum(t, entries, n);
    }
  }

  lemma ProducedGrows(s: State, bumped: set<TagGeneration>)
    requires Produced(s) && s.bumped <= bumped
    ensures Produced(s.(bumped := bumped))
  {
    forall i | 0 <= i < |s.nodes| ensures TableProduced(s.nodes[i], bumped) {
      assert TableProduced(s.nodes[i], s.bumped);
    }
    forall m | m in s.net ensures EntriesProduced(m.entries, bumped) {
      assert EntriesProduced(m.entries, s.bumped);
    }
  }

  lemma StepProduced(s: State, a: Action, s': State)
    requires Produced(s) && Next(s, a, s')
    ensures Produced(s')
  {
    hide DigestOf, ReplyOf, MergeAll, TableProduced, EntriesProduced;
    match a
    case Register(i, n) => WithProduced(s.nodes[i], n, 0, s.bumped);
    case Bump(i, n, peers) =>
      ProducedGrows(s, s'.bumped);
      var g: u64 := Raised(s.nodes[i], n);
      WithProduced(s.nodes[i], n, g, s'.bumped);
      OneProduced(n, g, s'.bumped);
    case Offer(i, p, round, full, entries) => DigestProduced(s.nodes[i], round, full, entries, s.bumped);
    case Serve(m, behind) =>
      MergeProduced(s.nodes[m.receiver], m.entries, s.bumped);
      ReplyProduced(s.nodes[m.receiver], m.full, m.entries, behind, s.bumped);
    case Learn(m) => MergeProduced(s.nodes[m.receiver], m.entries, s.bumped);
  }

  lemma WithProduced(t: Table, n: Name, g: u64, bumped: set<TagGeneration>)
    requires TableProduced(t, bumped) && (g > 0 ==> TagGeneration(n, g) in bumped)
    ensures TableProduced(With(t, n, g), bumped)
  {
    forall k | Gen(With(t, n, g), k) > 0 ensures TagGeneration(k, Gen(With(t, n, g), k)) in bumped {
      if k != n { assert Gen(With(t, n, g), k) == Gen(t, k); }
    }
  }

  lemma OneProduced(n: Name, g: u64, bumped: set<TagGeneration>)
    requires TagGeneration(n, g) in bumped
    ensures EntriesProduced([TagGeneration(n, g)], bumped)
  {
  }

  lemma DigestProduced(t: Table, round: nat, full: bool, entries: seq<TagGeneration>, bumped: set<TagGeneration>)
    requires TableProduced(t, bumped) && DigestOf(t, round, full, entries)
    ensures EntriesProduced(entries, bumped)
  {
    hide DigestOf;
    forall e | e in entries ensures e in bumped { DigestIsHonest(t, round, full, entries, e); }
  }

  lemma ReplyProduced(t: Table, full: bool, entries: seq<TagGeneration>, behind: seq<TagGeneration>, bumped: set<TagGeneration>)
    requires TableProduced(t, bumped) && ReplyOf(t, full, entries, behind)
    ensures EntriesProduced(behind, bumped)
  {
    hide ReplyOf;
    forall e | e in behind && e.generation > 0 ensures e in bumped { ReplyIsHonest(t, full, entries, behind, e); }
  }

  ghost predicate At(run: seq<State>, actions: seq<Action>, k: nat)
    requires |run| == |actions| + 1 && k < |actions|
  {
    Next(run[k], actions[k], run[k + 1])
  }

  ghost predicate Run(run: seq<State>, actions: seq<Action>) {
    |run| == |actions| + 1 && forall k :: 0 <= k < |actions| ==> At(run, actions, k)
  }

  lemma {:induction false} RunLater(run: seq<State>, actions: seq<Action>, i: nat, j: nat)
    requires Run(run, actions) && i <= j < |run|
    ensures Later(run[i], run[j])
    decreases j
  {
    hide Next;
    if i < j {
      RunLater(run, actions, i, j - 1);
      assert At(run, actions, j - 1);
      StepRises(run[j - 1], actions[j - 1], run[j]);
    }
  }

  /** Over every run, whatever the network does: generations never go back, and every one of them
      was produced by a bump. */
  lemma {:induction false} RunsAreSafe(run: seq<State>, actions: seq<Action>, i: nat, j: nat)
    requires Run(run, actions) && Produced(run[0]) && i <= j < |run|
    ensures Later(run[i], run[j]) && Produced(run[j])
    decreases j
  {
    hide Next, Produced;
    RunLater(run, actions, i, j);
    if j > 0 {
      RunsAreSafe(run, actions, 0, j - 1);
      assert At(run, actions, j - 1);
      StepProduced(run[j - 1], actions[j - 1], run[j]);
    }
  }

  /** An invalidation that reached a node once holds there for the rest of the run: no delayed,
      repeated or out-of-order message undoes it. */
  lemma DeliveredForGood(run: seq<State>, actions: seq<Action>, k: nat, j: nat, e: TagGeneration)
    requires Run(run, actions) && k < j < |run|
    requires (actions[k].Serve? || actions[k].Learn?) && e in actions[k].message.entries
    ensures actions[k].message.receiver < |run[j].nodes|
         && Gen(run[j].nodes[actions[k].message.receiver], e.name) >= e.generation
  {
    hide MergeAll, ReplyOf;
    assert At(run, actions, k);
    var i := actions[k].message.receiver;
    MergeAllIsMaximum(run[k].nodes[i], actions[k].message.entries, e.name);
    RunLater(run, actions, k + 1, j);
    assert AtMost(run[k + 1].nodes[i], run[j].nodes[i]);
  }

  // -- What an invalidation does -------------------------------------------------------------

  /** An invalidation moves its own node one generation on, short of the last, and nothing else. */
  lemma BumpRaises(s: State, i: nat, n: Name, peers: set<nat>, s': State, j: nat, m: Name)
    requires Next(s, Bump(i, n, peers), s') && j < |s.nodes|
    ensures |s'.nodes| == |s.nodes|
    ensures Gen(s'.nodes[j], m)
            == if j == i && m == n && Gen(s.nodes[i], n) < U64_MAX then Gen(s.nodes[i], n) + 1 else Gen(s.nodes[j], m)
    ensures Gen(s.nodes[i], n) < U64_MAX ==>
      forall p :: p in peers ==> Request(i, p, false, [TagGeneration(n, Gen(s.nodes[i], n) + 1)]) in s'.net
  {
  }

  /** The step puts the message on the network: a push of one more than was held, a digest, or the
      reply to one. */
  predicate Sends(s: State, a: Action, m: Message) {
    match a
    case Bump(i, n, peers) =>
      && m.Request? && m.sender == i && m.receiver in peers && !m.full
      && i < |s.nodes| && |m.entries| == 1 && m.entries[0].name == n
      && m.entries[0].generation as int == Min(Gen(s.nodes[i], n) as int + 1, 0xFFFF_FFFF_FFFF_FFFF)
    case Offer(i, p, _, full, entries) => m == Request(i, p, full, entries)
    case Serve(asked, behind) => asked.Request? && m == Answer(asked.sender, behind)
    case _ => false
  }

  /** What a step sends can be delivered at any later time. */
  lemma SentCanArrive(run: seq<State>, actions: seq<Action>, k: nat, j: nat, m: Message)
    requires Run(run, actions) && k < j < |run| && Sends(run[k], actions[k], m) && m.receiver < |run[k].nodes|
    ensures m.Request? ==> exists behind, s' :: Next(run[j], Serve(m, behind), s')
    ensures m.Answer? ==> exists s' :: Next(run[j], Learn(m), s')
  {
    hide Next, MergeAll, ReplyOf, DigestOf;
    assert At(run, actions, k);
    RunLater(run, actions, k + 1, j);
    RunLater(run, actions, k, j);
    SentIsUp(run[k], actions[k], run[k + 1], m);
    DeliveryPossible(run[j], m);
  }

  lemma DeliveryPossible(s: State, m: Message)
    requires m in s.net && m.receiver < |s.nodes|
    ensures m.Request? ==> exists behind, s' :: Next(s, Serve(m, behind), s')
    ensures m.Answer? ==> exists s' :: Next(s, Learn(m), s')
  {
    hide MergeAll, ReplyOf;
    var t := MergeAll(s.nodes[m.receiver], m.entries);
    if m.Request? {
      var behind := SomeReply(s.nodes[m.receiver], m.full, m.entries);
      assert Next(s, Serve(m, behind), s.(nodes := s.nodes[m.receiver := t], net := s.net + {Answer(m.sender, behind)}));
    } else {
      assert Next(s, Learn(m), s.(nodes := s.nodes[m.receiver := t]));
    }
  }

  lemma SentIsUp(s: State, a: Action, s': State, m: Message)
    requires Next(s, a, s') && Sends(s, a, m)
    ensures m in s'.net
  {
    hide MergeAll, ReplyOf, DigestOf;
    if a.Bump? {
      assert m == Request(a.node, m.receiver, false, [TagGeneration(a.name, Raised(s.nodes[a.node], a.name))]);
    }
  }

  lemma NamesStay(s: State, a: Action, s': State, i: nat, n: Name)
    requires Next(s, a, s') && i < |s.nodes| && n in s.nodes[i]
    ensures |s'.nodes| == |s.nodes| && n in s'.nodes[i]
  {
    hide MergeAll, ReplyOf, DigestOf;
    if a.Serve? || a.Learn? { MergeAllIsMaximum(s.nodes[a.message.receiver], a.message.entries, n); }
  }

  /** A name a node has registered it can invalidate ever after. */
  lemma {:induction false} RegisteredForGood(run: seq<State>, actions: seq<Action>, k: nat, j: nat, peers: set<nat>)
    requires Run(run, actions) && k < j < |run| && actions[k].Register? && At(run, actions, k)
    ensures actions[k].node < |run[j].nodes| && actions[k].name in run[j].nodes[actions[k].node]
    ensures exists s' :: Next(run[j], Bump(actions[k].node, actions[k].name, peers), s')
    decreases j
  {
    hide MergeAll, ReplyOf, DigestOf;
    var i, n := actions[k].node, actions[k].name;
    if j > k + 1 {
      RegisteredForGood(run, actions, k, j - 1, peers);
      assert At(run, actions, j - 1);
      NamesStay(run[j - 1], actions[j - 1], run[j], i, n);
    }
    BumpPossible(run[j], i, n, peers);
  }

  lemma BumpPossible(s: State, i: nat, n: Name, peers: set<nat>)
    requires i < |s.nodes| && n in s.nodes[i]
    ensures exists s' :: Next(s, Bump(i, n, peers), s')
  {
    var g: u64 := Raised(s.nodes[i], n);
    assert Next(s, Bump(i, n, peers), State(s.nodes[i := With(s.nodes[i], n, g)],
                                            s.net + set p | p in peers :: Request(i, p, false, [TagGeneration(n, g)]),
                                            s.bumped + {TagGeneration(n, g)}));
  }

  /** A node that has served the push of an invalidation is past the generation the invalidating node held before, for the rest of the run. */
  lemma PushRetires(run: seq<State>, actions: seq<Action>, k: nat, j: nat, l: nat)
    requires Run(run, actions) && k < j < l < |run| && actions[k].Bump?
    requires At(run, actions, k)
    requires Gen(run[k].nodes[actions[k].node], actions[k].name) < U64_MAX
    requires
      var g := Gen(run[k].nodes[actions[k].node], actions[k].name);
      actions[j].Serve? && TagGeneration(actions[k].name, g + 1) in actions[j].message.entries
    ensures actions[j].message.receiver < |run[l].nodes|
    ensures Gen(run[l].nodes[actions[j].message.receiver], actions[k].name)
            > Gen(run[k].nodes[actions[k].node], actions[k].name)
  {
    var g := Gen(run[k].nodes[actions[k].node], actions[k].name);
    DeliveredForGood(run, actions, j, l, TagGeneration(actions[k].name, g + 1));
  }

  /** So is a node that has served a digest the invalidating node offered since, if the digest has the
      name in it; and a digest of the whole table always has. */
  lemma DigestRetires(run: seq<State>, actions: seq<Action>, k: nat, o: nat, j: nat, l: nat)
    requires Run(run, actions) && k < o < j < l < |run| && actions[k].Bump? && At(run, actions, k)
    requires Gen(run[k].nodes[actions[k].node], actions[k].name) < U64_MAX
    requires actions[o].Offer? && actions[o].node == actions[k].node
    requires actions[j].Serve? && actions[j].message.entries == actions[o].entries
    requires actions[o].full || Carries(actions[o].entries, actions[k].name)
    ensures actions[j].message.receiver < |run[l].nodes|
    ensures Gen(run[l].nodes[actions[j].message.receiver], actions[k].name)
            > Gen(run[k].nodes[actions[k].node], actions[k].name)
  {
    hide DigestOf, MergeAll, ReplyOf;
    var i, n := actions[k].node, actions[k].name;
    BumpRaises(run[k], i, n, actions[k].peers, run[k + 1], i, n);
    RunLater(run, actions, k + 1, o);
    assert AtMost(run[k + 1].nodes[i], run[o].nodes[i]);
    assert At(run, actions, o);
    var e := DigestNames(run[o].nodes[i], actions[o].round, actions[o].full, actions[o].entries, n);
    DeliveredForGood(run, actions, j, l, e);
  }

  lemma DigestNames(t: Table, round: nat, full: bool, entries: seq<TagGeneration>, n: Name) returns (e: TagGeneration)
    requires DigestOf(t, round, full, entries) && Gen(t, n) > 0 && (full || Carries(entries, n))
    ensures e == TagGeneration(n, Gen(t, n)) && e in entries
  {
    e := TagGeneration(n, Gen(t, n));
    if !full {
      var f :| f in entries && f.name == n && f.generation > 0;
      DigestIsHonest(t, round, full, entries, f);
    }
  }
}
