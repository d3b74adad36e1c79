/** Draining a connection's buffer: its commands cut into runs, each run sent to the tier that suits
    it, and all of it invisible to the client. */
module Drain {
  import opened Core
  import opened Commands
  import opened Store
  import opened SetMany
  import opened Twins
  import opened Serving
  import opened Framing
  import opened B = Backend
  import opened E = Executor
  import opened Slices
  import opened Runs
  import Auth

  datatype Tier = Inline | Awaited | Pool

  /** The commands from `from` up to `to`, handed over in one go. */
  datatype Hop = Hop(from: nat, to: nat, tier: Tier)

  /** Whether this block's reads may run inline, and this connection's writes be awaited. */
  datatype Tiers = Tiers(inlines: bool, awaits: bool)

  /** The pool gets what no other tier may take; and where reads stay in the pool, a block of mixed
      kinds goes there whole. */
  ghost predicate Pooled(fs: seq<Frame>, tiers: Tiers, from: nat, to: nat)
    requires to <= |fs|
  {
    if tiers.inlines then
      forall j :: from <= j < to ==> !ReadFrame(fs[j]) && (tiers.awaits ==> !AwaitableSet(fs[j]))
    else from == 0 && to == |fs| && (tiers.awaits ==> !AllAwaitable(fs))
  }

  ghost predicate TierFits(fs: seq<Frame>, tiers: Tiers, h: Hop) {
    && h.from < h.to <= |fs|
    && match h.tier
       case Inline => tiers.inlines && AllReads(fs[h.from..h.to])
       case Awaited => tiers.awaits && AllAwaitable(fs[h.from..h.to])
       case Pool => Pooled(fs, tiers, h.from, h.to)
  }

  ghost predicate HopAt(fs: seq<Frame>, tiers: Tiers, hops: seq<Hop>, i: nat)
    requires i < |hops|
  {
    && hops[i].from == (if i == 0 then 0 else hops[i - 1].to)
    && TierFits(fs, tiers, hops[i])
  }

  /** The hops ran the first `k` commands, each exactly once and in order, each on its own tier. */
  ghost predicate Covers(fs: seq<Frame>, tiers: Tiers, hops: seq<Hop>, k: nat) {
    && k == (if hops == [] then 0 else hops[|hops| - 1].to)
    && forall i :: 0 <= i < |hops| ==> HopAt(fs, tiers, hops, i)
  }

  /** Within every stretch of untagged plain sets, writes to one key agree on what they store. */
  ghost predicate AgreeingStretches(cfg: Config, fs: seq<Frame>) {
    forall k, e :: 0 <= k <= e <= |fs| && AllAwaitable(fs[k..e]) ==>
      Consistent(cfg, map[], Writes(fs[k..e]))
  }

  /** The last hop held the command that closed the connection. */
  ghost predicate HungUp(sv: Server, run: Reference, hops: seq<Hop>, ran: nat) {
    && hops != [] && hops[|hops| - 1].from <= |run.fs| && ran <= |run.fs|
    && !WorldAt(sv, run, hops[|hops| - 1].from).closed && WorldAt(sv, run, ran).closed
  }

  predicate WorthInlining(kind: RunKind, commands: nat, enabled: bool, most: nat) {
    kind.Reads? && enabled && commands <= most
  }

  lemma HopAdded(fs: seq<Frame>, tiers: Tiers, hops: seq<Hop>, h: Hop)
    requires Covers(fs, tiers, hops, h.from) && TierFits(fs, tiers, h)
    ensures Covers(fs, tiers, hops + [h], h.to)
  {
    hide TierFits;
    var hops' := hops + [h];
    forall i | 0 <= i < |hops'| ensures HopAt(fs, tiers, hops', i) {
      if i < |hops| { assert HopAt(fs, tiers, hops, i); }
    }
  }

  /** Neither of the other tiers takes the run. */
  predicate Unclaimed(runs: seq<Run>, i: nat, tiers: Tiers)
    requires i < |runs|
  {
    !(runs[i].kind.Reads? && tiers.inlines) && !(runs[i].kind.Writing? && tiers.awaits)
  }

  predicate AllUnclaimed(runs: seq<Run>, index: nat, next: nat, tiers: Tiers)
    requires next <= |runs|
  {
    forall i :: index <= i < next ==> Unclaimed(runs, i, tiers)
  }

  lemma {:induction false} RunOf(runs: seq<Run>, index: nat, next: nat, j: nat) returns (i: nat)
    requires index <= next <= |runs| && Before(runs, index) <= j < Before(runs, next)
    ensures index <= i < next && Before(runs, i) <= j < Before(runs, i + 1)
    decreases next
  {
    if j >= Before(runs, next - 1) {
      i := next - 1;
    } else {
      i := RunOf(runs, index, next - 1, j);
    }
  }

  /** Runs that neither other tier takes are the pool's. */
  lemma PoolFits(parse: Parser, b: bytes, runs: seq<Run>, index: nat, next: nat, tiers: Tiers, strict: bool)
    requires Framed(parse) && index < next <= |runs| && Layout(parse, b, runs, |Frames(parse, b)|, strict)
    requires !strict ==> !tiers.inlines && !AllAwaitable(Frames(parse, b))
    requires !tiers.inlines ==> |runs| == 1
    requires AllUnclaimed(runs, index, next, tiers)
    ensures Before(runs, next) <= |Frames(parse, b)| && Pooled(Frames(parse, b), tiers, Before(runs, index), Before(runs, next))
  {
    hide Framed, Frames, Start;
    var fs := Frames(parse, b);
    assert RunAt(parse, b, runs, next - 1, strict);
    if tiers.inlines {
      forall j | Before(runs, index) <= j < Before(runs, next)
        ensures !ReadFrame(fs[j]) && (tiers.awaits ==> !AwaitableSet(fs[j]))
      {
        var i := RunOf(runs, index, next, j);
        assert Unclaimed(runs, i, tiers);
        assert RunAt(parse, b, runs, i, strict);
      }
    } else if strict && tiers.awaits {
      assert RunAt(parse, b, runs, 0, strict);
      assert KindOf(fs[0]) == runs[0].kind && Unclaimed(runs, 0, tiers);
    }
  }

  /** A block of more than one run is of more than one kind. */
  lemma MixedBlock(parse: Parser, b: bytes, runs: seq<Run>)
    requires Framed(parse) && |runs| > 1 && Sharp(runs, 1) && Layout(parse, b, runs, |Frames(parse, b)|, true)
    ensures !AllAwaitable(Frames(parse, b))
  {
    hide Framed, Frames, Start;
    var fs := Frames(parse, b);
    assert RunAt(parse, b, runs, 0, true) && RunAt(parse, b, runs, 1, true);
    assert KindOf(fs[Before(runs, 0)]) == runs[0].kind && KindOf(fs[Before(runs, 1)]) == runs[1].kind;
  }

  /** An untagged write's effect does not depend on the tag table. */
  lemma UntaggedEffect(cfg: Config, g: Generations, x: Write)
    requires x.tags == []
    ensures EffectOf(cfg, g, x) == EffectOf(cfg, map[], x)
  {
    assert Resolve(g, x.tags) == [] == Resolve(map[], x.tags);
  }

  lemma StretchConsistent(cfg: Config, g: Generations, fs: seq<Frame>)
    requires AllAwaitable(fs) && Consistent(cfg, map[], Writes(fs))
    ensures Consistent(cfg, g, Writes(fs))
  {
    hide EffectOf;
    var xs := Writes(fs);
    forall x, y | x in xs && y in xs && x.key == y.key ensures EffectOf(cfg, g, x) == EffectOf(cfg, g, y) {
      UntaggedEffect(cfg, g, x);
      UntaggedEffect(cfg, g, y);
    }
  }

  lemma WriterStays(free: bool, sv: Server, run: Reference, k: nat, x: Snapshot)
    requires AgreesIf(free, sv, run, k, false, x) && MayWrite(sv, run.start.session)
    ensures MayWrite(sv, x.session)
  {
    hide Serve;
    WriterIsUnlocked(sv, run.start.session);
    UnlockedSession(sv, run.start, run.fs[..k]);
  }

  lemma RunKinds(parse: Parser, b: bytes, runs: seq<Run>, i: nat)
    requires Framed(parse) && i < |runs| && RunAt(parse, b, runs, i, false)
    ensures
      var fs := Frames(parse, b)[Before(runs, i)..Before(runs, i + 1)];
      (runs[i].kind.Reads? ==> AllReads(fs)) && (runs[i].kind.Writing? ==> AllAwaitable(fs))
  {
    hide Framed, Frames, Start;
  }

  lemma Relaxed(parse: Parser, b: bytes, runs: seq<Run>, k: nat)
    requires Framed(parse) && Layout(parse, b, runs, k, true)
    ensures Layout(parse, b, runs, k, false)
  {
    hide Framed, Frames, Start;
    forall i | 0 <= i < |runs| ensures RunAt(parse, b, runs, i, false) {
      assert RunAt(parse, b, runs, i, true);
    }
  }

  lemma OneRun(parse: Parser, b: bytes, k: nat)
    requires Framed(parse) && 0 < k <= |Frames(parse, b)|
    ensures Layout(parse, b, [Run(Start(parse, b, k), k, RunKind.Other)], k, false)
  {
    hide Framed, Frames;
    var runs := [Run(Start(parse, b, k), k, RunKind.Other)];
    assert Before(runs, 0) == 0 && Before(runs, 1) == k;
    assert RunAt(parse, b, runs, 0, false);
  }

  class Connection {
    const exec: Executor
    const inlineReads: bool
    const inlineMax: nat
    var readBuf: bytes
    var runs: seq<Run>

    constructor (exec: Executor, inlineReads: bool, inlineMax: nat)
      ensures this.exec == exec && readBuf == []
    {
      this.exec, this.inlineReads, this.inlineMax := exec, inlineReads, inlineMax;
      readBuf, runs := [], [];
    }

    /** Finds how much of the buffer is whole commands and cuts it into maximal runs by kind. */
    method Measure(parse: Parser) returns (complete: nat, fatal: bool)
      requires Framed(parse)
      modifies this`runs
      ensures
        var n := |Frames(parse, readBuf)|;
        complete == Start(parse, readBuf, n) && complete <= |readBuf| && Layout(parse, readBuf, runs, n, true)
      ensures forall i :: 0 < i < |runs| ==> Sharp(runs, i)
      ensures fatal == parse(readBuf[complete..]).Fatal?
    {
      hide Framed, FramedAt, Frames, Start, Sharp;
      ghost var fs := Frames(parse, readBuf);
      ghost var k: nat := 0;
      runs, complete := [], 0;
      StartsAtZero(parse, readBuf);
      while true
        invariant k <= |fs| && complete == Start(parse, readBuf, k) <= |readBuf|
        invariant Layout(parse, readBuf, runs, k, true) && forall i :: 0 < i < |runs| ==> Sharp(runs, i)
        decreases |fs| - k
      {
        FramesFrom(parse, readBuf, k);
        EndOfFrames(parse, readBuf[complete..]);
        var parsed := parse(readBuf[complete..]);
        if !parsed.Complete? {
          return complete, parsed.Fatal?;
        }
        assert fs[k] == fs[k..][0] == parsed.frame;
        ExtendLayout(parse, readBuf, runs, k);
        ExtendSharp(runs, KindOf(parsed.frame), parsed.consumed);
        StartInside(parse, readBuf, k + 1);
        runs := Extended(runs, KindOf(parsed.frame), parsed.consumed);
        complete := complete + parsed.consumed;
        k := k + 1;
      }
    }

    /** What the run may be taken by. A write run needs a connection whose writes owe no refusal. */
    predicate TakenInline(i: nat, readsInline: bool)
      requires i < |runs|
      reads this
    {
      runs[i].kind.Reads? && readsInline
    }

    predicate TakenAwaited(i: nat, mayWrite: bool)
      requires i < |runs|
      reads this
    {
      runs[i].kind.Writing? && mayWrite
    }

    /** The runs that share a hop with the run at `index`: those after it that are headed for the
        pool too, if it is. */
    method Gather(parse: Parser, index: nat, readsInline: bool, mayWrite: bool, ghost b: bytes, ghost n: nat)
      returns (next: nat, len: nat)
      requires Framed(parse) && index < |runs| && Layout(parse, b, runs, n, false)
      ensures index < next <= |runs| && Before(runs, index) < Before(runs, next) <= |Frames(parse, b)|
      ensures Start(parse, b, Before(runs, index)) + len == Start(parse, b, Before(runs, next))
      ensures TakenInline(index, readsInline) || TakenAwaited(index, mayWrite) ==> next == index + 1
      ensures !TakenInline(index, readsInline) && !TakenAwaited(index, mayWrite) ==>
        AllUnclaimed(runs, index, next, Tiers(readsInline, mayWrite))
    {
      hide Framed, Frames, Start;
      assert RunAt(parse, b, runs, index, false);
      next, len := index + 1, runs[index].len;
      if !TakenInline(index, readsInline) && !TakenAwaited(index, mayWrite) {
        while next < |runs| && !TakenInline(next, readsInline) && !TakenAwaited(next, mayWrite)
          invariant index < next <= |runs| && Before(runs, index) < Before(runs, next) <= |Frames(parse, b)|
          invariant Start(parse, b, Before(runs, index)) + len == Start(parse, b, Before(runs, next))
          invariant AllUnclaimed(runs, index, next, Tiers(readsInline, mayWrite))
        {
          assert RunAt(parse, b, runs, next, false);
          len := len + runs[next].len;
          next := next + 1;
        }
      }
    }

    /** Runs every whole command in the buffer, up to and including the first that hangs up. Each
        command's bytes go to one tier, once, in order: reads run inline where that is on and the
        block is small enough, untagged plain sets are awaited where the connection may write, and
        the rest goes to the pool. Contents and
        replies end where serving the commands one at a time ends them, but for the tokens the
        replies show: given that no `cas` names a token its shard had yet to give out when the
        buffer was read, and that no awaited run had a key's writes reordered to a lasting effect,
        which a block whose neighbouring plain sets agree never has. While every submission was
        exact, tokens and everything else agree for any block. */
    method Drain(parse: Parser) returns (keepGoing: bool, ghost hops: seq<Hop>, ghost ran: nat, ghost quit: bool)
      requires exec.store.cfg == exec.sv.cfg && Framed(parse)
      modifies this`readBuf, this`runs, exec`out, exec.conn, exec.store
      ensures
        var run := Reference(old(exec.Here(false)), Frames(parse, old(readBuf)), old(exec.store.visits));
        && AgreesIf(Free(exec.sv, run) && exec.store.orderly, exec.sv, run, |run.fs|, quit, exec.Snap())
        && Covers(run.fs, Tiers(inlineReads && |run.fs| <= inlineMax, MayWrite(exec.sv, run.start.session)), hops, ran)
        && ran <= |run.fs| && (!quit ==> ran == |run.fs|)
        && (quit ==> HungUp(exec.sv, run, hops, ran))
        && (AgreeingStretches(exec.sv.cfg, run.fs) ==> exec.store.orderly == old(exec.store.orderly))
        && (exec.store.orderly ==> old(exec.store.orderly)) && (exec.store.exact ==> old(exec.store.exact))
        && Start(parse, old(readBuf), |run.fs|) <= |old(readBuf)|
        && readBuf == old(readBuf)[Start(parse, old(readBuf), |run.fs|)..]
        && keepGoing == !(quit || parse(readBuf).Fatal?)
    {
      hide AgreesIf, Free, Framed, Frames, Start, Layout, MayWrite, Covers, AgreeingStretches, WorldAt, AllAwaitable;
      ghost var b, fs := readBuf, Frames(parse, readBuf);
      ghost var run := Reference(exec.Here(false), fs, exec.store.visits);
      var mayWrite := MayWrite(exec.sv, exec.conn.Now());
      var complete, fatal := Measure(parse);
      var block := readBuf[..complete];
      readBuf := readBuf[complete..];
      var closing := false;
      hops, ran, quit := [], 0, false;
      Begins(Free(exec.sv, run) && exec.store.orderly, exec.sv, run, exec.Snap());
      StartsAtZero(parse, b);
      Relaxed(parse, b, runs, |fs|);
      if complete > 0 {
        var commands := Before(runs, |runs|);
        var readsInline := WorthInlining(RunKind.Reads, commands, inlineReads, inlineMax);
        ghost var strict := true;
        LaidOut(parse, b, runs, |fs|);
        if !readsInline && |runs| > 1 {
          MixedBlock(parse, b, runs);
          runs := [Run(complete, commands, RunKind.Other)];
          OneRun(parse, b, |fs|);
          strict := false;
        }
        LaidOut(parse, b, runs, |fs|);
        ran, closing, hops := RunAll(parse, block, readsInline, mayWrite, run, b, strict);
        quit := closing;
      } else {
        NothingWhole(parse, b);
      }
      keepGoing := !(closing || fatal);
    }

    method RunAll(parse: Parser, block: bytes, readsInline: bool, mayWrite: bool, ghost run: Reference, ghost b: bytes,
                  ghost strict: bool)
      returns (ghost ran: nat, quit: bool, ghost hops: seq<Hop>)
      requires exec.store.cfg == exec.sv.cfg && Framed(parse)
      requires run.fs == Frames(parse, b) && Layout(parse, b, runs, |run.fs|, false)
      requires Layout(parse, b, runs, |run.fs|, strict) && (!strict ==> !readsInline && !AllAwaitable(run.fs))
      requires !readsInline ==> |runs| <= 1
      requires Start(parse, b, |run.fs|) <= |b| && block == b[..Start(parse, b, |run.fs|)]
      requires mayWrite ==> MayWrite(exec.sv, run.start.session)
      requires AgreesIf(Free(exec.sv, run) && exec.store.orderly, exec.sv, run, 0, false, exec.Snap())
      modifies exec`out, exec.conn, exec.store
      ensures AgreesIf(Free(exec.sv, run) && exec.store.orderly, exec.sv, run, |run.fs|, quit, exec.Snap())
      ensures Covers(run.fs, Tiers(readsInline, mayWrite), hops, ran) && ran <= |run.fs| && (!quit ==> ran == |run.fs|)
      ensures quit ==> HungUp(exec.sv, run, hops, ran)
      ensures AgreeingStretches(exec.sv.cfg, run.fs) ==> exec.store.orderly == old(exec.store.orderly)
      ensures (exec.store.orderly ==> old(exec.store.orderly)) && (exec.store.exact ==> old(exec.store.exact))
    {
      hide AgreesIf, Free, Framed, Frames, Start, Layout, MayWrite, Covers, AgreeingStretches, WorldAt, AllPlain, AllReads, AllAwaitable, AllUnclaimed, TierFits, Consistent, Writes;
      var offset, index := 0, 0;
      ghost var orderly, exact := exec.store.orderly, exec.store.exact;
      hops, quit := [], false;
      StartsAtZero(parse, b);
      ghost var tiers := Tiers(readsInline, mayWrite);
      NoHops(run.fs, tiers);
      while index < |runs|
        invariant index <= |runs| && Before(runs, index) <= |run.fs| && offset == Start(parse, b, Before(runs, index))
        invariant AgreesIf(Free(exec.sv, run) && exec.store.orderly, exec.sv, run, Before(runs, index), false, exec.Snap())
        invariant Covers(run.fs, tiers, hops, Before(runs, index))
        invariant AgreeingStretches(exec.sv.cfg, run.fs) ==> exec.store.orderly == orderly
        invariant (exec.store.orderly ==> orderly) && (exec.store.exact ==> exact)
      {
        ghost var k := Before(runs, index);
        var awaitable := TakenAwaited(index, mayWrite);
        var next, len := Gather(parse, index, readsInline, mayWrite, b, |run.fs|);
        ghost var e := Before(runs, next);
        ghost var h := Hop(k, e, TierOf(runs[index].kind, tiers));
        HopPlanned(parse, b, runs, index, next, tiers, strict, hops, h);
        hops, ran := hops + [h], e;
        quit := RunHop(parse, block[offset..offset + len], awaitable, run, b, k, e);
        if quit {
          return;
        }
        offset := offset + len;
        index := next;
      }
      LaidOut(parse, b, runs, |run.fs|);
      ran := |run.fs|;
    }

    /** One hop: the commands of one slice, handed to one tier. */
    method RunHop(parse: Parser, slice: bytes, awaitable: bool, ghost run: Reference, ghost b: bytes, ghost k: nat, ghost e: nat)
      returns (quit: bool)
      requires exec.store.cfg == exec.sv.cfg && Framed(parse) && run.fs == Frames(parse, b) && k <= e <= |run.fs|
      requires Start(parse, b, k) <= Start(parse, b, e) <= |b| && slice == b[Start(parse, b, k)..Start(parse, b, e)]
      requires awaitable ==> AllAwaitable(run.fs[k..e]) && AllPlain(run.fs[k..e]) && MayWrite(exec.sv, run.start.session)
      requires AgreesIf(Free(exec.sv, run) && exec.store.orderly, exec.sv, run, k, false, exec.Snap())
      modifies exec`out, exec.conn, exec.store
      ensures AgreesIf(Free(exec.sv, run) && exec.store.orderly, exec.sv, run, if quit then |run.fs| else e, quit, exec.Snap())
      ensures quit ==> !WorldAt(exec.sv, run, k).closed && WorldAt(exec.sv, run, e).closed
      ensures AgreeingStretches(exec.sv.cfg, run.fs) ==> exec.store.orderly == old(exec.store.orderly)
      ensures (exec.store.orderly ==> old(exec.store.orderly)) && (exec.store.exact ==> old(exec.store.exact))
    {
      hide AgreesIf, Free, Framed, Frames, Start, MayWrite, AgreeingStretches, WorldAt, AllPlain, AllReads, AllAwaitable, Consistent, Writes;
      SliceFrames(parse, b, k, e);
      if awaitable {
        WriterStays(Free(exec.sv, run) && exec.store.orderly, exec.sv, run, k, exec.Snap());
        StretchOf(exec.sv.cfg, exec.store.state.contents.generations, run.fs, k, e);
      }
      NotClosed(Free(exec.sv, run) && exec.store.orderly, exec.sv, run, k, exec.Snap());
      quit := RunSlice(exec, parse, slice, awaitable, run, k, e);
      if quit {
        HasClosed(Free(exec.sv, run) && exec.store.orderly, exec.sv, run, e, exec.Snap());
        ClosedAgrees(Free(exec.sv, run) && exec.store.orderly, exec.sv, run, e, exec.Snap());
      }
    }
  }

  lemma Begins(free: bool, sv: Server, run: Reference, x: Snapshot)
    requires run.start == World(x.store, x.session, x.out, false) && run.visits == x.visits
    ensures AgreesIf(free, sv, run, 0, false, x)
    ensures forall tiers :: Covers(run.fs, tiers, [], 0)
  {
    TwinSelf(sv.cfg, x.store.stamps, x.store.stamps);
  }

  lemma NoHops(fs: seq<Frame>, tiers: Tiers)
    ensures Covers(fs, tiers, [], 0)
  {
  }

  /** The tier a hop is sent to fits what it holds. */
  lemma TierChosen(parse: Parser, b: bytes, runs: seq<Run>, index: nat, next: nat, tiers: Tiers, strict: bool, h: Hop)
    requires Framed(parse) && index < next <= |runs| && Layout(parse, b, runs, |Frames(parse, b)|, strict)
    requires !strict ==> !tiers.inlines && !AllAwaitable(Frames(parse, b))
    requires !tiers.inlines ==> |runs| <= 1
    requires h == Hop(Before(runs, index), Before(runs, next), TierOf(runs[index].kind, tiers))
    requires if h.tier.Pool? then AllUnclaimed(runs, index, next, tiers) else next == index + 1
    requires h.from < h.to <= |Frames(parse, b)|
    ensures TierFits(Frames(parse, b), tiers, h)
  {
    hide Framed, Frames, Start, AllReads, AllAwaitable, Pooled, RunAt, AllUnclaimed;
    if h.tier.Pool? {
      PoolFits(parse, b, runs, index, next, tiers, strict);
    } else {
      LaidRun(parse, b, runs, index, strict);
      RunKinds(parse, b, runs, index);
    }
  }

  /** A hop over the gathered runs: where its bytes lie, what it holds, and that it carries the cover on. */
  lemma HopPlanned(parse: Parser, b: bytes, runs: seq<Run>, index: nat, next: nat, tiers: Tiers, strict: bool,
                   hops: seq<Hop>, h: Hop)
    requires Framed(parse) && index < next <= |runs| && Layout(parse, b, runs, |Frames(parse, b)|, strict)
    requires !strict ==> !tiers.inlines && !AllAwaitable(Frames(parse, b))
    requires !tiers.inlines ==> |runs| <= 1
    requires h == Hop(Before(runs, index), Before(runs, next), TierOf(runs[index].kind, tiers))
    requires if h.tier.Pool? then AllUnclaimed(runs, index, next, tiers) else next == index + 1
    requires h.from < h.to <= |Frames(parse, b)| && Covers(Frames(parse, b), tiers, hops, h.from)
    ensures Covers(Frames(parse, b), tiers, hops + [h], h.to)
    ensures Start(parse, b, h.from) <= Start(parse, b, h.to) <= Start(parse, b, |Frames(parse, b)|)
    ensures h.tier.Awaited? ==>
      AllAwaitable(Frames(parse, b)[h.from..h.to]) && AllPlain(Frames(parse, b)[h.from..h.to])
  {
    hide Framed, Frames, Start, Layout, Covers, AllUnclaimed, Pooled, AllReads;
    StartRises(parse, b, h.from, h.to);
    StartRises(parse, b, h.to, |Frames(parse, b)|);
    TierChosen(parse, b, runs, index, next, tiers, strict, h);
    HopAdded(Frames(parse, b), tiers, hops, h);
  }

  function TierOf(kind: RunKind, tiers: Tiers): Tier {
    if kind.Reads? && tiers.inlines then Inline else if kind.Writing? && tiers.awaits then Awaited else Pool
  }

  lemma LaidRun(parse: Parser, b: bytes, runs: seq<Run>, i: nat, strict: bool)
    requires Framed(parse) && i < |runs| && Layout(parse, b, runs, |Frames(parse, b)|, strict)
    ensures RunAt(parse, b, runs, i, false)
  {
    hide Framed, Frames, Start;
    assert RunAt(parse, b, runs, i, strict);
  }

  lemma LaidOut(parse: Parser, b: bytes, runs: seq<Run>, k: nat)
    requires Framed(parse) && Layout(parse, b, runs, k, false)
    ensures Before(runs, |runs|) == k && (k > 0 <==> runs != [])
  {
    hide Framed, Frames, Start;
    if runs != [] {
      assert RunAt(parse, b, runs, |runs| - 1, false);
    }
  }

  lemma NothingWhole(parse: Parser, b: bytes)
    requires Framed(parse) && Start(parse, b, |Frames(parse, b)|) == 0
    ensures Frames(parse, b) == []
  {
    if Frames(parse, b) != [] { Consumes(parse, b); }
  }

  lemma StretchOf(cfg: Config, g: Generations, fs: seq<Frame>, k: nat, e: nat)
    requires k <= e <= |fs| && AllAwaitable(fs[k..e])
    ensures AgreeingStretches(cfg, fs) ==> Consistent(cfg, g, Writes(fs[k..e]))
  {
    if AgreeingStretches(cfg, fs) { StretchConsistent(cfg, g, fs[k..e]); }
  }

  lemma NotClosed(free: bool, sv: Server, run: Reference, k: nat, x: Snapshot)
    requires AgreesIf(free, sv, run, k, false, x)
    ensures k <= |run.fs| && !WorldAt(sv, run, k).closed
  {
  }

  lemma HasClosed(free: bool, sv: Server, run: Reference, k: nat, x: Snapshot)
    requires AgreesIf(free, sv, run, k, true, x)
    ensures k <= |run.fs| && WorldAt(sv, run, k).closed
  {
  }

  lemma StartsAtZero(parse: Parser, b: bytes)
    requires Framed(parse)
    ensures Start(parse, b, 0) == 0
  {
  }

  lemma EndOfFrames(parse: Parser, b: bytes)
    requires Framed(parse)
    ensures parse(b).Complete? <==> Frames(parse, b) != []
    ensures parse(b).Complete? ==> Frames(parse, b)[0] == parse(b).frame
  {
    if parse(b).Complete? { Consumes(parse, b); }
  }
}
