/** A connection's whole life: bytes arrive in reads of any size, and what the client sees is the
    stream they make up, served one command at a time. */
module Conversation {
  import opened Core
  import opened Commands
  import opened Store
  import opened SetMany
  import opened Serving
  import opened Framing
  import opened B = Backend
  import opened E = Executor
  import opened Slices
  import opened D = Drain
  import opened Twins
  import Auth

  /** Bytes a connection may have buffered before and after it has authenticated, and failures it
      may commit. */
  datatype Limits = Limits(preAuth: nat, buffered: nat, attempts: nat)

  datatype Ending = Open | Closed | Garbled | Overfull | Guessing

  function Ceiling(limits: Limits, gate: Auth.Gate, s: Auth.Session): nat {
    if Auth.Locked(gate, s) then limits.preAuth else limits.buffered
  }

  /** Where the reference stands with the first `i` reads behind it. */
  ghost function Standing(sv: Server, start: World, parse: Parser, chunks: seq<bytes>, i: nat): World
    requires Framed(parse) && i <= |chunks|
  {
    Serve(sv, start, Frames(parse, Stream(chunks[..i])))
  }

  /** What is buffered when the read after the first `i` comes in does not pass the ceiling, which is
      lower for a connection that has yet to authenticate. */
  ghost predicate FitsAt(sv: Server, start: World, parse: Parser, limits: Limits, chunks: seq<bytes>, i: nat)
    requires Framed(parse) && i < |chunks|
  {
    var w := Standing(sv, start, parse, chunks, i);
    |Leftover(parse, Stream(chunks[..i]))| + |chunks[i]|
    <= if w.session.identity.None? && sv.gate.required then limits.preAuth else limits.buffered
  }

  /** Nothing in the first `i` reads is cause to end the connection: no command hung up, what is left
      over may yet become one, and the failures to authenticate are below the bound. */
  ghost predicate GoesOn(sv: Server, start: World, parse: Parser, limits: Limits, chunks: seq<bytes>, i: nat)
    requires Framed(parse) && i <= |chunks|
  {
    var w := Standing(sv, start, parse, chunks, i);
    && !w.closed && !parse(Leftover(parse, Stream(chunks[..i]))).Fatal?
    && (w.session.failures as int) < limits.attempts
  }

  /** The first `used` reads were drained, each because the one before gave no cause to stop. */
  ghost predicate Paced(sv: Server, start: World, parse: Parser, limits: Limits, chunks: seq<bytes>, used: nat)
    requires Framed(parse) && used <= |chunks|
  {
    && (forall i :: 0 <= i < used ==> FitsAt(sv, start, parse, limits, chunks, i))
    && (forall i :: 0 < i < used ==> GoesOn(sv, start, parse, limits, chunks, i))
  }

  function Stream(chunks: seq<bytes>): bytes {
    if chunks == [] then [] else Stream(chunks[..|chunks| - 1]) + chunks[|chunks| - 1]
  }

  lemma StreamNext(chunks: seq<bytes>, i: nat)
    requires i < |chunks|
    ensures Stream(chunks[..i + 1]) == Stream(chunks[..i]) + chunks[i]
  {
    assert chunks[..i + 1][..i] == chunks[..i];
  }

  // -- The reference over a growing stream ---------------------------------------------------

  lemma WeakerAgrees(free: bool, weaker: bool, sv: Server, run: Reference, m: nat, closing: bool, x: Snapshot)
    requires AgreesIf(free, sv, run, m, closing, x) && (weaker ==> free)
    ensures AgreesIf(weaker, sv, run, m, closing, x)
  {
  }

  /** More frames to come change nothing about those served. */
  lemma Longer(free: bool, sv: Server, run: Reference, long: Reference, m: nat, closing: bool, x: Snapshot)
    requires AgreesIf(free, sv, run, m, closing, x)
    requires long.start == run.start && long.visits == run.visits && run.fs <= long.fs
    ensures AgreesIf(free, sv, long, m, closing, x)
  {
    hide Serve, Tracks;
    assert long.fs[..m] == run.fs[..m];
    LongerTracks(free, sv, run, long, m, x);
    forall v | v in x.visits - long.visits ensures Justified(sv, long, v) {
      assert Justified(sv, run, v);
      LongerJustified(sv, run, long, v);
    }
  }

  lemma LongerTracks(free: bool, sv: Server, run: Reference, long: Reference, m: nat, x: Snapshot)
    requires long.start == run.start && run.fs <= long.fs && m <= |run.fs|
    requires Tracks(sv.cfg, run.start.store.stamps, x.exact, free, NoneShows(run.fs), x.store, x.session, x.out, WorldAt(sv, run, m))
    ensures Tracks(sv.cfg, long.start.store.stamps, x.exact, free, NoneShows(long.fs), x.store, x.session, x.out, WorldAt(sv, long, m))
  {
    hide Serve, Twin, MaskedAll;
    assert long.fs[..m] == run.fs[..m];
    assert NoneShows(long.fs) ==> NoneShows(run.fs);
  }

  lemma LongerJustified(sv: Server, run: Reference, long: Reference, v: Visit)
    requires long.start == run.start && run.fs <= long.fs && Justified(sv, run, v)
    ensures Justified(sv, long, v)
  {
    hide Serve, Reaches, Target;
    var i :| 0 <= i < |run.fs| && JustifiedAt(sv, run, i, v);
    assert long.fs[..i] == run.fs[..i] && long.fs[i] == run.fs[i];
    assert JustifiedAt(sv, long, i, v);
  }

  lemma LongerFree(sv: Server, run: Reference, long: Reference)
    requires long.start == run.start && run.fs <= long.fs && Free(sv, long)
    ensures Free(sv, run)
  {
  }

  lemma LongerAgreeing(cfg: Config, fs: seq<Frame>, k: nat)
    requires AgreeingStretches(cfg, fs) && k <= |fs|
    ensures AgreeingStretches(cfg, fs[k..]) && AgreeingStretches(cfg, fs[..k])
  {
    var tail, head := fs[k..], fs[..k];
    forall i, e | 0 <= i <= e <= |tail| && AllAwaitable(tail[i..e]) ensures Consistent(cfg, map[], Writes(tail[i..e])) {
      assert tail[i..e] == fs[k + i..k + e];
    }
    forall i, e | 0 <= i <= e <= |head| && AllAwaitable(head[i..e]) ensures Consistent(cfg, map[], Writes(head[i..e])) {
      assert head[i..e] == fs[i..e];
    }
  }

  /** One read more: serving it from where the connection stood serves the longer stream. */
  lemma ReadAgrees(sv: Server, run: Reference, more: seq<Frame>, orderly: bool, kept: bool, closing: bool, a: Snapshot, b: Snapshot)
    requires AgreesIf(Free(sv, run) && orderly, sv, run, |run.fs|, false, a)
    requires
      var sub := Reference(World(a.store, a.session, a.out, false), more, a.visits);
      AgreesIf(Free(sv, sub) && kept, sv, sub, |more|, closing, b)
    requires (b.exact ==> a.exact) && (kept ==> orderly)
    ensures
      var long := Reference(run.start, run.fs + more, run.visits);
      AgreesIf(Free(sv, long) && kept, sv, long, |long.fs|, closing, b)
  {
    hide AgreesIf, Free;
    var long := Reference(run.start, run.fs + more, run.visits);
    var k, e := |run.fs|, |long.fs|;
    if Free(sv, long) { LongerFree(sv, run, long); }
    Longer(Free(sv, run) && orderly, sv, run, long, k, false, a);
    WeakerAgrees(Free(sv, run) && orderly, Free(sv, long) && orderly, sv, long, k, false, a);
    assert long.fs[k..e] == more;
    SliceAgrees(Free(sv, long) && orderly, kept, sv, long, k, e, closing, a, b);
    WeakerAgrees(Free(sv, long) && orderly && kept, Free(sv, long) && kept, sv, long, e, closing, b);
  }

  // -- The loop ------------------------------------------------------------------------------

  /** With this much of the stream drained, the connection is where the reference is. */
  ghost predicate Drained(sv: Server, start: World, visits: set<Visit>, parse: Parser, stream: bytes,
                          orderly: bool, closing: bool, x: Snapshot)
    requires Framed(parse)
  {
    var run := Reference(start, Frames(parse, stream), visits);
    && AgreesIf(Free(sv, run) && orderly, sv, run, |run.fs|, closing, x)
    && (AgreeingStretches(sv.cfg, run.fs) ==> orderly)
  }

  lemma NothingDrained(sv: Server, parse: Parser, x: Snapshot)
    requires Framed(parse)
    ensures Drained(sv, World(x.store, x.session, x.out, false), x.visits, parse, [], true, false, x)
    ensures Leftover(parse, []) == []
  {
    hide AgreesIf, Free;
    NoFrames(parse);
    var run := Reference(World(x.store, x.session, x.out, false), [], x.visits);
    Begins(Free(sv, run), sv, run, x);
  }

  lemma DrainedMore(sv: Server, start: World, visits: set<Visit>, parse: Parser, stream: bytes, chunk: bytes,
                    orderly: bool, kept: bool, closing: bool, a: Snapshot, b: Snapshot)
    requires Framed(parse) && Extends(parse) && Drained(sv, start, visits, parse, stream, orderly, false, a)
    requires
      var sub := Reference(World(a.store, a.session, a.out, false), Frames(parse, Leftover(parse, stream) + chunk), a.visits);
      && AgreesIf(Free(sv, sub) && kept, sv, sub, |sub.fs|, closing, b)
      && (AgreeingStretches(sv.cfg, sub.fs) ==> kept == orderly)
    requires (b.exact ==> a.exact) && (kept ==> orderly)
    ensures Drained(sv, start, visits, parse, stream + chunk, kept, closing, b)
    ensures Leftover(parse, stream + chunk) == Leftover(parse, Leftover(parse, stream) + chunk)
  {
    hide AgreesIf, Free, Framed, Extends, Frames, Leftover, AgreeingStretches;
    var fs, more := Frames(parse, stream), Frames(parse, Leftover(parse, stream) + chunk);
    FramesExtend(parse, stream, chunk);
    ReadAgrees(sv, Reference(start, fs, visits), more, orderly, kept, closing, a, b);
    if AgreeingStretches(sv.cfg, fs + more) {
      LongerAgreeing(sv.cfg, fs + more, |fs|);
      assert (fs + more)[|fs|..] == more && (fs + more)[..|fs|] == fs;
    }
  }

  /** Bytes that arrive once the connection is closed are never heard. */
  lemma ClosedForGood(sv: Server, start: World, visits: set<Visit>, parse: Parser, stream: bytes, rest: bytes,
                      orderly: bool, x: Snapshot)
    requires Framed(parse) && Extends(parse) && Drained(sv, start, visits, parse, stream, orderly, true, x)
    ensures Drained(sv, start, visits, parse, stream + rest, orderly, true, x)
  {
    hide AgreesIf, Free, Framed, Extends, Frames, Leftover, AgreeingStretches;
    FramesExtend(parse, stream, rest);
    var fs, more := Frames(parse, stream), Frames(parse, Leftover(parse, stream) + rest);
    var run, long := Reference(start, fs, visits), Reference(start, fs + more, visits);
    if Free(sv, long) { LongerFree(sv, run, long); }
    Longer(Free(sv, run) && orderly, sv, run, long, |fs|, true, x);
    WeakerAgrees(Free(sv, run) && orderly, Free(sv, long) && orderly, sv, long, |fs|, true, x);
    ClosedAgrees(Free(sv, long) && orderly, sv, long, |fs|, x);
    if AgreeingStretches(sv.cfg, long.fs) {
      LongerAgreeing(sv.cfg, long.fs, |fs|);
      assert long.fs[..|fs|] == fs;
    }
  }

  lemma {:induction false} StreamSplits(chunks: seq<bytes>, i: nat) returns (rest: bytes)
    requires i <= |chunks|
    ensures Stream(chunks) == Stream(chunks[..i]) + rest
    decreases |chunks|
  {
    if i == |chunks| {
      assert chunks[..i] == chunks;
      rest := [];
    } else {
      var front := chunks[..|chunks| - 1];
      rest := StreamSplits(front, i);
      assert front[..i] == chunks[..i];
      rest := rest + chunks[|chunks| - 1];
    }
  }

  /** Serves what one read added. */
  method Turn(conn: Connection, parse: Parser, limits: Limits, ghost chunk: bytes, ghost stream: bytes,
              ghost start: World, ghost visits: set<Visit>)
    returns (more: bool, ghost ending: Ending)
    requires conn.exec.store.cfg == conn.exec.sv.cfg && Framed(parse) && Extends(parse)
    requires conn.readBuf == Leftover(parse, stream) + chunk
    requires Drained(conn.exec.sv, start, visits, parse, stream, conn.exec.store.orderly, false, conn.exec.Snap())
    modifies conn`readBuf, conn`runs, conn.exec`out, conn.exec.conn, conn.exec.store
    ensures Drained(conn.exec.sv, start, visits, parse, stream + chunk, conn.exec.store.orderly, ending.Closed?, conn.exec.Snap())
    ensures conn.readBuf == Leftover(parse, stream + chunk) && !ending.Overfull? && more == ending.Open?
    ensures ending.Garbled? ==> parse(conn.readBuf).Fatal?
    ensures ending.Open? ==> !parse(conn.readBuf).Fatal?
    ensures ending.Guessing? ==> conn.exec.conn.failures as int >= limits.attempts
    ensures ending.Open? ==> (conn.exec.conn.failures as int) < limits.attempts
  {
    hide Drained, AgreesIf, Free, Framed, Extends, Frames, Leftover, AgreeingStretches, Covers, HungUp;
    ghost var b, a, orderly := conn.readBuf, conn.exec.Snap(), conn.exec.store.orderly;
    LeftoverStarts(parse, b);
    ghost var hops, ran, quit;
    more, hops, ran, quit := conn.Drain(parse);
    DrainedMore(conn.exec.sv, start, visits, parse, stream, chunk, orderly, conn.exec.store.orderly, quit, a, conn.exec.Snap());
    ending := if quit then Closed else if !more then Garbled else Open;
    if more && conn.exec.conn.failures as int >= limits.attempts {
      more, ending := false, Guessing;
    }
  }

  /** Serves a connection, read by read. However the stream is cut, what has been drained agrees
      with the reference for the stream so far, whose whole commands have all been served and whose
      last, unfinished one is still buffered; and with the reference for the whole stream, unless
      the connection was cut off. It stops before the reads do only for a command that
      hangs up, for bytes that can be no command's start, for a buffer over its ceiling, or for too
      many failures to authenticate. */
  method Converse(conn: Connection, parse: Parser, limits: Limits, chunks: seq<bytes>)
    returns (ghost ending: Ending, ghost used: nat)
    requires conn.exec.store.cfg == conn.exec.sv.cfg && Framed(parse) && Extends(parse) && conn.readBuf == []
    modifies conn`readBuf, conn`runs, conn.exec`out, conn.exec.conn, conn.exec.store
    ensures used <= |chunks| && (ending.Open? ==> used == |chunks|)
    ensures
      Drained(conn.exec.sv, old(conn.exec.Here(false)), old(conn.exec.store.visits), parse, Stream(chunks[..used]),
              conn.exec.store.orderly, ending.Closed?, conn.exec.Snap())
    ensures ending.Open? || ending.Closed? ==>
      Drained(conn.exec.sv, old(conn.exec.Here(false)), old(conn.exec.store.visits), parse, Stream(chunks),
              conn.exec.store.orderly, ending.Closed?, conn.exec.Snap())
    ensures !ending.Overfull? ==> conn.readBuf == Leftover(parse, Stream(chunks[..used]))
    ensures ending.Garbled? ==> parse(Leftover(parse, Stream(chunks[..used]))).Fatal?
    ensures ending.Guessing? ==> conn.exec.conn.failures as int >= limits.attempts
    ensures Paced(conn.exec.sv, old(conn.exec.Here(false)), parse, limits, chunks, used)
    ensures ending.Open? <==>
      used == |chunks| && (used > 0 ==> GoesOn(conn.exec.sv, old(conn.exec.Here(false)), parse, limits, chunks, used))
    ensures ending.Overfull? <==>
      && used < |chunks| && !FitsAt(conn.exec.sv, old(conn.exec.Here(false)), parse, limits, chunks, used)
      && (used > 0 ==> GoesOn(conn.exec.sv, old(conn.exec.Here(false)), parse, limits, chunks, used))
  {
    hide Drained, Framed, Extends, Frames, Leftover, Auth.Locked, Stream, Serve;
    var exec, i, more := conn.exec, 0, true;
    exec.store.exact, exec.store.orderly := true, true;
    ghost var stream: bytes, start, visits := [], exec.Here(false), exec.store.visits;
    NothingDrained(exec.sv, parse, exec.Snap());
    used, ending := 0, Open;
    assert Stream(chunks[..0]) == [] by { NothingStreamed(chunks); }
    while i < |chunks| && more
      invariant i == used <= |chunks| && stream == Stream(chunks[..used])
      invariant conn.readBuf == Leftover(parse, stream) && !ending.Overfull? && more == ending.Open?
      invariant Drained(exec.sv, start, visits, parse, stream, exec.store.orderly, ending.Closed?, exec.Snap())
      invariant Paced(exec.sv, start, parse, limits, chunks, used)
      invariant used > 0 ==> (ending.Open? <==> GoesOn(exec.sv, start, parse, limits, chunks, used))
      invariant used == 0 ==> ending.Open?
      invariant ending.Garbled? ==> parse(conn.readBuf).Fatal?
      invariant ending.Guessing? ==> exec.conn.failures as int >= limits.attempts
    {
      DrainedSession(exec.sv, start, visits, parse, stream, exec.store.orderly, ending.Closed?, exec.Snap());
      conn.readBuf := conn.readBuf + chunks[i];
      CeilingIs(limits, exec.sv.gate, exec.conn.Now());
      if |conn.readBuf| > Ceiling(limits, exec.sv.gate, exec.conn.Now()) {
        ending := Overfull;
        return;
      }
      assert FitsAt(exec.sv, start, parse, limits, chunks, used);
      more, ending := Turn(conn, parse, limits, chunks[i], stream, start, visits);
      StreamNext(chunks, used);
      stream, used, i := stream + chunks[i], used + 1, i + 1;
      DrainedSession(exec.sv, start, visits, parse, stream, exec.store.orderly, ending.Closed?, exec.Snap());
    }
    if ending.Open? {
      assert chunks[..used] == chunks;
    } else if ending.Closed? {
      ghost var rest := StreamSplits(chunks, used);
      ClosedForGood(exec.sv, start, visits, parse, stream, rest, exec.store.orderly, exec.Snap());
    }
  }

  lemma CeilingIs(limits: Limits, gate: Auth.Gate, s: Auth.Session)
    ensures Ceiling(limits, gate, s) == if s.identity.None? && gate.required then limits.preAuth else limits.buffered
  {
  }

  lemma DrainedSession(sv: Server, start: World, visits: set<Visit>, parse: Parser, stream: bytes,
                       orderly: bool, closing: bool, x: Snapshot)
    requires Framed(parse) && Drained(sv, start, visits, parse, stream, orderly, closing, x)
    ensures
      var w := Serve(sv, start, Frames(parse, stream));
      w.session == x.session && w.closed == closing
  {
    hide Framed, Frames, Serve, Twin;
    var fs := Frames(parse, stream);
    assert fs[..|fs|] == fs;
  }

  lemma NothingStreamed(chunks: seq<bytes>)
    ensures Stream(chunks[..0]) == []
  {
  }
}
