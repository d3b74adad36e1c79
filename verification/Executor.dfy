/** The block executor: a block of commands, consecutive plain sets held back and submitted together. */
module Executor {
  import opened Core
  import opened Commands
  import opened Store
  import opened SetMany
  import opened Twins
  import opened Serving
  import opened Framing
  import opened B = Backend
  import Auth

  /** What the executor has reached agrees with the reference: in everything while every submission
      was exact; if `free`, which is to say that no frame decides by a token from after `base`, in
      the contents and in the replies but for the tokens they show; and in the replies whole if none
      shows a token. */
  ghost predicate Tracks(cfg: Config, base: Stamps, exact: bool, free: bool, hidden: bool,
                         s: State, session: Auth.Session, out: seq<Line>, w: World) {
    && session == w.session
    && (exact ==> s == w.store && out == w.out)
    && (free ==> s.contents == w.store.contents && MaskedAll(out) == MaskedAll(w.out))
    && (free ==> Twin(cfg, base, s.stamps, w.store.stamps))
    && (free && hidden ==> out == w.out)
  }

  /** A frame a runtime worker may serve itself. */
  predicate ReadFrame(f: Frame) { f.Decoded? && InlineSafe(f.parsed.command) }
  predicate AllReads(fs: seq<Frame>) { forall i :: 0 <= i < |fs| ==> ReadFrame(fs[i]) }

  /** Frames to serve, from where, and what the store had been asked before them. */
  datatype Reference = Reference(start: World, fs: seq<Frame>, visits: set<Visit>)

  /** Where the reference is with the first `m` frames behind it. */
  ghost function WorldAt(sv: Server, run: Reference, m: nat): World
    requires m <= |run.fs|
  {
    Serve(sv, run.start, run.fs[..m])
  }

  /** The visit is a frame's, allowed for the roles that frame needs under the identity held when
      its turn comes. */
  ghost predicate Justified(sv: Server, run: Reference, v: Visit) {
    exists i :: 0 <= i < |run.fs| && JustifiedAt(sv, run, i, v)
  }

  ghost predicate JustifiedAt(sv: Server, run: Reference, i: nat, v: Visit)
    requires i < |run.fs|
  {
    && run.fs[i].Decoded? && v.command == Target(run.fs[i].parsed)
    && v.session == WorldAt(sv, run, i).session
    && Reaches(sv, v.session, run.fs[i])
  }

  ghost predicate AllJustified(sv: Server, run: Reference, visits: set<Visit>) {
    forall v :: v in visits - run.visits ==> Justified(sv, run, v)
  }

  datatype Snapshot = Snapshot(
    exact: bool, store: State, session: Auth.Session, out: seq<Line>, visits: set<Visit>)

  /** With the first `m` frames behind it, the executor is where the reference is: contents and
      replies too if `free`. */
  ghost predicate AgreesIf(free: bool, sv: Server, run: Reference, m: nat, closing: bool, x: Snapshot) {
    && m <= |run.fs|
    && WorldAt(sv, run, m).closed == closing
    && Tracks(sv.cfg, run.start.store.stamps, x.exact, free, NoneShows(run.fs), x.store, x.session, x.out, WorldAt(sv, run, m))
    && AllJustified(sv, run, x.visits)
  }

  /** No frame is a `cas` with a token its shard had yet to give out when the run began. */
  ghost predicate Free(sv: Server, run: Reference) { NoneAhead(sv.cfg, run.start.store.stamps, run.fs) }

  ghost predicate Agrees(sv: Server, run: Reference, m: nat, closing: bool, x: Snapshot) {
    AgreesIf(Free(sv, run), sv, run, m, closing, x)
  }

  class Executor {
    const sv: Server
    const store: Backend
    const conn: Auth.ConnAuth
    var out: seq<Line>

    constructor (sv: Server, store: Backend, conn: Auth.ConnAuth)
      requires store.cfg == sv.cfg
      ensures this.sv == sv && this.store == store && this.conn == conn && out == []
    {
      this.sv, this.store, this.conn, out := sv, store, conn, [];
    }

    ghost function Here(closed: bool): World
      reads this, store, conn
    {
      World(store.state, conn.Now(), out, closed)
    }

    /** A frame on a connection that has yet to authenticate. */
    method ExecuteUnauthenticated(p: Parsed) returns (closing: bool)
      modifies this`out, conn
      ensures Here(closing) == Knocked(sv, old(Here(false)), p)
    {
      closing := p.command.Quit?;
      if closing {
        return;
      }
      if !(p.command.Set? && p.command.write.mode.Always?) {
        RefuseWith(p, UnauthenticatedReason);
        return;
      }
      match Auth.SplitCredential(p.command.write.value) {
        case None =>
          conn.Fail();
          RefuseWith(p, BadTokenFormat);
        case Some((name, secret)) =>
          match sv.gate.verify(name, secret) {
            case None =>
              conn.Fail();
              RefuseWith(p, AuthenticationFailure);
            case Some(id) =>
              conn.Succeed(id);
              if !p.noreply {
                out := out + Welcome(p, p.command.write);
              }
          }
      }
    }

    method RefuseWith(p: Parsed, reason: Reason)
      modifies this`out
      ensures out == old(out) + Unless(p.noreply, [ClientError(reason)])
    {
      if !p.noreply {
        out := out + [ClientError(reason)];
      }
    }

    /** One command, gated and then executed against the store. */
    method Execute(p: Parsed) returns (closing: bool)
      requires store.cfg == sv.cfg
      modifies this`out, conn, store`state, store`visits
      ensures Here(closing) == Handled(sv, old(Here(false)), p)
      ensures store.visits == old(store.visits) +
        if Reaches(sv, old(conn.Now()), Decoded(p)) then {Visit(Target(p), old(conn.Now()))} else {}
    {
      hide Knocked, Executed;
      var session := conn.Now();
      if Auth.Locked(sv.gate, session) {
        closing := ExecuteUnauthenticated(p);
        return;
      }
      if !Auth.Allows(sv.gate, session, Auth.Needs(p)) {
        RefuseWith(p, UnauthorizedReason);
        return false;
      }
      var before := store.state;
      var result := store.Execute(Target(p), session);
      closing := result == Ok(Closing);
      if Special(p.style) || !p.noreply {
        match result {
          case Ok(reply) =>
            out := out + Rendered(p.style, Target(p), reply, Shown(p.style, Target(p), before, store.state));
          case Err(status) => out := out + [Failure(status)];
        }
      }
    }
  
    ghost function Snap(): Snapshot
      reads this, store, conn
    {
      Snapshot(store.exact, store.state, conn.Now(), out, store.visits)
    }

    /** Submits the held run: the reference has served its frames. */
    method FlushHeld(batch: SetBatch, ghost run: Reference, ghost n: nat, ghost m: nat)
      requires store.cfg == sv.cfg && batch.Valid() && Agrees(sv, run, n, false, Snap())
      requires n < m ==> MayWrite(sv, conn.Now())
      requires n <= m <= |run.fs| && batch.frames == run.fs[n..m]
      modifies this`out, batch, store
      ensures batch.Valid() && batch.frames == []
      ensures Agrees(sv, run, m, false, Snap())
      ensures store.orderly == old(store.orderly) && (store.exact ==> old(store.exact))
      ensures n == m ==> store.state == old(store.state)
    {
      hide AgreesIf, Free, WorldAt, OneByOne, Owed, Possible, Twin;
      ghost var before := Snap();
      if batch.IsEmpty() {
        return;
      }
      out := batch.Flush(store, conn.Now(), out);
      FlushVisits(Free(sv, run), sv, run, n, m, before, store.visits);
      FlushAgrees(Free(sv, run), sv, run, n, m, true, before, Snap());
    }

    /** One command, when nothing is held. */
    method ExecuteFrame(p: Parsed, ghost run: Reference, ghost m: nat) returns (closing: bool)
      requires store.cfg == sv.cfg && Agrees(sv, run, m, false, Snap())
      requires m < |run.fs| && run.fs[m] == Decoded(p)
      modifies this`out, conn, store`state, store`visits
      ensures Agrees(sv, run, m + 1, closing, Snap())
      ensures Auth.Locked(sv.gate, conn.Now()) ==>
        Auth.Locked(sv.gate, old(conn.Now())) && store.state == old(store.state)
      ensures InlineSafe(p.command) ==> store.state == old(store.state)
    {
      hide Handled, Agrees, Reaches, WorldAt;
      ghost var before := Snap();
      OnlyAllowedChange(sv, Here(false), run.fs[m]);
      if InlineSafe(p.command) { InlineOnlyReads(sv, Here(false), run.fs[m]); }
      closing := Execute(p);
      ExecuteAgrees(sv, run, m, closing, before, Snap());
    }

    /** A recoverable parse error takes the place of a reply. */
    method ReportMalformed(response: bytes, ghost run: Reference, ghost m: nat)
      requires Agrees(sv, run, m, false, Snap()) && m < |run.fs| && run.fs[m] == Malformed(response)
      modifies this`out
      ensures Agrees(sv, run, m + 1, false, Snap())
    {
      hide WorldAt, MaskedAll, AllJustified, Twin, Free;
      ServeNext(sv, run, m);
      ghost var before, w := out, WorldAt(sv, run, m);
      if Auth.Locked(sv.gate, conn.Now()) {
        out := out + [ClientError(UnauthenticatedReason)];
      } else {
        out := out + [ParseError(response)];
      }
      MaskedJoins(before, out[|before|..]);
      MaskedJoins(w.out, out[|before|..]);
      assert out == before + out[|before|..];
    }

    /** The next frame: held if it is a plain set this connection may write, executed otherwise. */
    method Take(batch: SetBatch, frame: Frame, ghost run: Reference, ghost n: nat, ghost m: nat)
      returns (ghost n': nat, closing: bool)
      requires store.cfg == sv.cfg && batch.Valid() && Agrees(sv, run, n, false, Snap())
      requires n < m ==> MayWrite(sv, conn.Now())
      requires n <= m < |run.fs| && batch.frames == run.fs[n..m] && run.fs[m] == frame
      modifies this`out, batch, conn, store
      ensures closing ==> Agrees(sv, run, m + 1, true, Snap())
      ensures !closing ==> batch.Valid() && n' <= m + 1 && batch.frames == run.fs[n'..m + 1]
      ensures !closing ==> Agrees(sv, run, n', false, Snap()) && (n' < m + 1 ==> MayWrite(sv, conn.Now()))
      ensures Auth.Locked(sv.gate, conn.Now()) ==>
        Auth.Locked(sv.gate, old(conn.Now())) && store.state == old(store.state)
      ensures n == m && ReadFrame(frame) ==> store.state == old(store.state) && (!closing ==> n' == m + 1)
      ensures store.orderly == old(store.orderly) && (store.exact ==> old(store.exact))
    {
      hide Agrees, WorldAt, MayWrite, Auth.Allows, Auth.Locked, AllPlain, Writes, DistinctKeys;
      n', closing := n, false;
      WriterIsUnlocked(sv, conn.Now());
      match frame {
        case Decoded(p) =>
          if p.style.Storage? && Batchable(p.command) && Auth.Allows(sv.gate, conn.Now(), Auth.RolesFor(p.command)) {
            var x := p.command.write;
            PlainGate(sv, conn.Now(), x);
            if batch.Holds(x.key) {
              FlushHeld(batch, run, n, m);
              n' := m;
            }
            batch.Push(x, p.noreply, frame);
            OneMore(run.fs, n', m);
          } else {
            FlushHeld(batch, run, n, m);
            closing := ExecuteFrame(p, run, m);
            n' := m + 1;
          }
        case Malformed(response) =>
          FlushHeld(batch, run, n, m);
          ReportMalformed(response, run, m);
          n' := m + 1;
      }
    }

    /** Runs every whole command of the block, holding consecutive plain sets back to submit them
        together. The connection, the contents and the replies but for the tokens they show end
        where serving the same frames one at a time ends them, unless a `cas` names a token its shard
        had yet to give out; and everything does when every submission was exact. Nothing reaches
        the store that the gate would not have let through in its own place. */
    method ExecuteBlock(parse: Parser, block: bytes) returns (closing: bool)
      requires store.cfg == sv.cfg && Framed(parse)
      modifies this`out, conn, store
      ensures
        var run := Reference(old(Here(false)), Frames(parse, block), old(store.visits));
        Agrees(sv, run, |run.fs|, closing, Snap())
      ensures Auth.Locked(sv.gate, conn.Now()) ==> store.state == old(store.state)
      ensures AllReads(Frames(parse, block)) ==> store.state == old(store.state)
      ensures store.orderly == old(store.orderly) && (store.exact ==> old(store.exact))
    {
      hide AgreesIf, Free, WorldAt, Framed, Frames, MayWrite, Auth.Locked, AllPlain, Writes, DistinctKeys;
      ghost var run := Reference(Here(false), Frames(parse, block), store.visits);
      var batch := new SetBatch();
      var rest := block;
      ghost var n: nat, m: nat := 0, 0;
      StartsAgreed(sv, run, Snap());
      WriterIsUnlocked(sv, conn.Now());
      while rest != []
        invariant batch.Valid() && n <= m <= |run.fs| && batch.frames == run.fs[n..m]
        invariant Agrees(sv, run, n, false, Snap())
        invariant n < m ==> MayWrite(sv, conn.Now())
        invariant Frames(parse, rest) == run.fs[m..]
        invariant Auth.Locked(sv.gate, conn.Now()) ==> Auth.Locked(sv.gate, old(conn.Now())) && store.state == old(store.state)
        invariant AllReads(run.fs) ==> n == m && store.state == old(store.state)
        invariant store.orderly == old(store.orderly) && (store.exact ==> old(store.exact))
        decreases |rest|
      {
        NextFrame(parse, rest, run.fs, m);
        var parsed := parse(rest);
        if !parsed.Complete? {
          break;
        }
        n, closing := Take(batch, parsed.frame, run, n, m);
        if closing {
          ClosedAgrees(Free(sv, run), sv, run, m + 1, Snap());
          return;
        }
        m := m + 1;
        rest := rest[parsed.consumed..];
      }
      if rest == [] { NoFrames(parse); }
      WriterIsUnlocked(sv, conn.Now());
      FlushHeld(batch, run, n, m);
      closing := false;
    }
  }

  lemma OneMore(fs: seq<Frame>, n: nat, m: nat)
    requires n <= m < |fs|
    ensures fs[n..m + 1] == fs[n..m] + [fs[m]]
  {
  }

  /** The gate ahead of the batch asks for the one role a plain set needs. */
  lemma PlainGate(sv: Server, s: Auth.Session, x: Write)
    requires Deferrable(x)
    ensures Auth.Allows(sv.gate, s, Auth.RolesFor(Set(x))) == MayWrite(sv, s)
  {
  }

  lemma WriterIsUnlocked(sv: Server, s: Auth.Session)
    ensures MayWrite(sv, s) ==> !Auth.Locked(sv.gate, s)
  {
  }

  lemma StartsAgreed(sv: Server, run: Reference, x: Snapshot)
    requires run.start == World(x.store, x.session, x.out, false) && run.visits == x.visits
    ensures Agrees(sv, run, 0, false, x)
  {
    TwinSelf(sv.cfg, x.store.stamps, x.store.stamps);
  }

  lemma ClosedAgrees(free: bool, sv: Server, run: Reference, m: nat, x: Snapshot)
    requires AgreesIf(free, sv, run, m, true, x)
    ensures AgreesIf(free, sv, run, |run.fs|, true, x)
  {
    hide Serve;
    ServeOn(sv, run, m, |run.fs|);
    ClosedStays(sv, WorldAt(sv, run, m), run.fs[m..|run.fs|]);
  }

  lemma FlushAgrees(free: bool, sv: Server, run: Reference, n: nat, m: nat, kept: bool, a: Snapshot, b: Snapshot)
    requires AgreesIf(free, sv, run, n, false, a) && n <= m <= |run.fs|
    requires AllPlain(run.fs[n..m]) && MayWrite(sv, a.session)
    requires FlushStep(sv.cfg, run.fs[n..m], kept, a, b)
    requires AllJustified(sv, run, b.visits)
    ensures AgreesIf(free && kept, sv, run, m, false, b)
  {
    hide Serve, FlushStep, AllJustified, MayWrite, NoneShows, AllPlain, Tracks, WorldAt;
    ServeOn(sv, run, n, m);
    FlushTracked(sv, run.start.store.stamps, free, NoneShows(run.fs), WorldAt(sv, run, n), run.fs[n..m], kept, a, b);
  }

  /** What writing a run of plain sets comes to: the contents, if no key's writes were reordered,
      and the tokens, if exact; otherwise twins of them. */
  ghost predicate FlushStep(cfg: Config, held: seq<Frame>, kept: bool, a: Snapshot, b: Snapshot)
    requires AllPlain(held)
  {
    && b.session == a.session && b.out == a.out + Owed(cfg, held)
    && (kept ==> b.store.contents == OneByOne(cfg, a.store, Writes(held)).contents)
    && Twin(cfg, a.store.stamps, b.store.stamps, OneByOne(cfg, a.store, Writes(held)).stamps)
    && (b.exact ==> a.exact && b.store == OneByOne(cfg, a.store, Writes(held)))
  }

  lemma FlushTracked(sv: Server, base: Stamps, free: bool, hidden: bool, w: World, held: seq<Frame>, kept: bool,
                     a: Snapshot, b: Snapshot)
    requires Tracks(sv.cfg, base, a.exact, free, hidden, a.store, a.session, a.out, w) && !w.closed
    requires AllPlain(held) && MayWrite(sv, a.session) && FlushStep(sv.cfg, held, kept, a, b)
    ensures Tracks(sv.cfg, base, b.exact, free && kept, hidden, b.store, b.session, b.out, Serve(sv, w, held))
    ensures !Serve(sv, w, held).closed
  {
    hide Serve, OneByOne, Owed, MayWrite, AllPlain, Writes, MaskedAll, Twin;
    FlushTracks(sv, a.store, a.out, w, held);
    if free { FlushTwins(sv, base, w, held, a, b); }
  }

  lemma FlushTwins(sv: Server, base: Stamps, w: World, held: seq<Frame>, a: Snapshot, b: Snapshot)
    requires AllPlain(held) && MayWrite(sv, w.session) && !w.closed && Twin(sv.cfg, base, a.store.stamps, w.store.stamps)
    requires Twin(sv.cfg, a.store.stamps, b.store.stamps, OneByOne(sv.cfg, a.store, Writes(held)).stamps)
    ensures Twin(sv.cfg, base, b.store.stamps, Serve(sv, w, held).store.stamps)
  {
    hide Serve, OneByOne, TwinAt, MayWrite, Writes;
    var xs := Writes(held);
    PlainServe(sv, w, held);
    TwinOneByOne(sv.cfg, base, a.store, w.store, xs);
    TwinRebase(sv.cfg, base, a.store.stamps, b.store.stamps, OneByOne(sv.cfg, a.store, xs).stamps);
    TwinJoins(sv.cfg, base, b.store.stamps, OneByOne(sv.cfg, a.store, xs).stamps, OneByOne(sv.cfg, w.store, xs).stamps);
  }

  lemma FlushVisits(free: bool, sv: Server, run: Reference, n: nat, m: nat, a: Snapshot, visits: set<Visit>)
    requires AgreesIf(free, sv, run, n, false, a) && n <= m <= |run.fs|
    requires AllPlain(run.fs[n..m]) && MayWrite(sv, a.session)
    requires visits <= a.visits + set x | x in Writes(run.fs[n..m]) :: Visit(Set(x), a.session)
    ensures AllJustified(sv, run, visits)
  {
    hide Serve, Justified, WorldAt, MayWrite, AllPlain, Writes, Tracks;
    forall x | x in Writes(run.fs[n..m]) ensures Justified(sv, run, Visit(Set(x), a.session)) {
      HeldVisit(free, sv, run, n, m, a, x);
    }
  }

  lemma HeldVisit(free: bool, sv: Server, run: Reference, n: nat, m: nat, a: Snapshot, x: Write)
    requires AgreesIf(free, sv, run, n, false, a) && n <= m <= |run.fs|
    requires AllPlain(run.fs[n..m]) && MayWrite(sv, a.session) && x in Writes(run.fs[n..m])
    ensures Justified(sv, run, Visit(Set(x), a.session))
  {
    hide Serve, Justified, WorldAt, MayWrite, AllPlain, AllJustified;
    var held := run.fs[n..m];
    var i :| 0 <= i < |held| && x == Writes(held)[i];
    HeldJustified(sv, run, n, m, n + i);
  }

  lemma ExecuteAgrees(sv: Server, run: Reference, m: nat, closing: bool, a: Snapshot, b: Snapshot)
    requires Agrees(sv, run, m, false, a) && m < |run.fs| && run.fs[m].Decoded?
    requires b.exact == a.exact
    requires World(b.store, b.session, b.out, closing)
             == Handled(sv, World(a.store, a.session, a.out, false), run.fs[m].parsed)
    requires b.visits == a.visits +
      if Reaches(sv, a.session, run.fs[m]) then {Visit(Target(run.fs[m].parsed), a.session)} else {}
    ensures Agrees(sv, run, m + 1, closing, b)
  {
    hide Handled, Serve, WorldAt, MaskedAll, Twin;
    var w := WorldAt(sv, run, m);
    var here := World(a.store, a.session, a.out, false);
    ServeNext(sv, run, m);
    assert Step(sv, here, run.fs[m]) == Handled(sv, here, run.fs[m].parsed);
    if Free(sv, run) { TwinStep(sv, run.start.store.stamps, here, w, run.fs[m]); }
    StepSession(sv, here, w, run.fs[m]);
    VisitJustified(sv, run, m);
  }

  /** The identity a frame leaves, and whether it closes the connection, do not depend on the store. */
  lemma StepSession(sv: Server, v: World, w: World, f: Frame)
    requires v.session == w.session && v.closed == w.closed
    ensures Step(sv, v, f).session == Step(sv, w, f).session && Step(sv, v, f).closed == Step(sv, w, f).closed
  {
    hide Executed, Rendered, Shown, Welcome;
    if f.Decoded? {
      QuitCloses(sv.cfg, v.store, Target(f.parsed));
      QuitCloses(sv.cfg, w.store, Target(f.parsed));
    }
  }

  /** A frame served without leaving the runtime worker never writes, whoever sends it. */
  lemma InlineOnlyReads(sv: Server, w: World, f: Frame)
    requires ReadFrame(f)
    ensures Step(sv, w, f).store == w.store
  {
    ReadsStoreNothing(sv.cfg, w.store, Target(f.parsed));
  }

  lemma ReadsStoreNothing(cfg: Config, s: State, c: Command)
    requires InlineSafe(c) || c.ListKeys?
    ensures Executed(cfg, s, c).0 == s
  {
    var stamps := s.stamps;
    assert stamps.tokens - {} == stamps.tokens;
  }

  lemma QuitCloses(cfg: Config, s: State, c: Command)
    ensures Executed(cfg, s, c).1 == Ok(Closing) <==> c.Quit?
  {
  }

  lemma FlushTracks(sv: Server, s: State, out: seq<Line>, w: World, fs: seq<Frame>)
    requires AllPlain(fs) && MayWrite(sv, w.session) && !w.closed
    ensures
      var w' := Serve(sv, w, fs);
      && w'.session == w.session && !w'.closed
      && (s == w.store ==> w'.store == OneByOne(sv.cfg, s, Writes(fs)))
      && (s.contents == w.store.contents ==>
            w'.store.contents == OneByOne(sv.cfg, s, Writes(fs)).contents)
      && (out == w.out ==> w'.out == out + Owed(sv.cfg, fs))
      && (MaskedAll(out) == MaskedAll(w.out) ==> MaskedAll(w'.out) == MaskedAll(out + Owed(sv.cfg, fs)))
  {
    PlainServe(sv, w, fs);
    MaskedJoins(out, Owed(sv.cfg, fs));
    MaskedJoins(w.out, Owed(sv.cfg, fs));
    OneByOneSplits(sv.cfg, s, Writes(fs));
    OneByOneSplits(sv.cfg, w.store, Writes(fs));
  }

  lemma ServeOn(sv: Server, run: Reference, n: nat, m: nat)
    requires n <= m <= |run.fs|
    ensures Serve(sv, WorldAt(sv, run, n), run.fs[n..m]) == WorldAt(sv, run, m)
  {
    assert run.fs[..m] == run.fs[..n] + run.fs[n..m];
    ServeSplits(sv, run.start, run.fs[..n], run.fs[n..m]);
  }

  lemma ServeNext(sv: Server, run: Reference, m: nat)
    requires m < |run.fs|
    ensures WorldAt(sv, run, m + 1) == Step(sv, WorldAt(sv, run, m), run.fs[m])
  {
    ServeOn(sv, run, m, m + 1);
    assert run.fs[m..m + 1] == [run.fs[m]];
    ServeOne(sv, WorldAt(sv, run, m), run.fs[m]);
  }

  lemma VisitJustified(sv: Server, run: Reference, m: nat)
    requires m < |run.fs|
    ensures
      var session := WorldAt(sv, run, m).session;
      Reaches(sv, session, run.fs[m]) ==> Justified(sv, run, Visit(Target(run.fs[m].parsed), session))
  {
    hide WorldAt;
    var session := WorldAt(sv, run, m).session;
    if Reaches(sv, session, run.fs[m]) {
      assert JustifiedAt(sv, run, m, Visit(Target(run.fs[m].parsed), session));
    }
  }

  /** Held writes were allowed when their own turn came, since nothing held changes the identity. */
  lemma HeldJustified(sv: Server, run: Reference, n: nat, m: nat, i: nat)
    requires n <= i < m <= |run.fs| && AllPlain(run.fs[n..m])
    requires MayWrite(sv, WorldAt(sv, run, n).session)
    ensures PlainSet(run.fs[i])
    ensures Justified(sv, run, Visit(Set(WriteOf(run.fs[i])), WorldAt(sv, run, n).session))
  {
    hide Serve, Justified, Reaches, Target, MayWrite, Auth.Locked, WorldAt;
    var w := WorldAt(sv, run, n);
    assert run.fs[n..m][i - n] == run.fs[i];
    ServeOn(sv, run, n, i);
    PlainReaches(sv, w.session, run.fs[i]);
    UnlockedSession(sv, w, run.fs[n..i]);
    VisitJustified(sv, run, i);
  }

  lemma PlainReaches(sv: Server, s: Auth.Session, f: Frame)
    requires PlainSet(f) && MayWrite(sv, s)
    ensures Reaches(sv, s, f) && Target(f.parsed) == Set(WriteOf(f)) && !Auth.Locked(sv.gate, s)
  {
  }
}
