/** The reference behaviour of a memcached connection: one frame at a time, each seeing everything
    the frames before it did. */
module Serving {
  import opened Core
  import opened Commands
  import opened Store
  import opened SetMany
  import opened Twins
  import Auth

  datatype Server = Server(cfg: Config, gate: Auth.Gate)

  datatype Spoken = STORED | NOT_STORED | EXISTS | NOT_FOUND | DELETED | TOUCHED | OK | END | UNEXPECTED
  datatype Reason = UnauthenticatedReason | UnauthorizedReason | BadTokenFormat | AuthenticationFailure

  /** One line of a reply, or a reply with everything its bytes are rendered from. */
  datatype Line =
    | Said(word: Spoken)
    | Figure(number: int)
    | Hit(key: Key, value: bytes, flags: u32, token: Option<nat>)
    | Answer(style: Style, command: Command, reply: Reply, tokens: map<Key, nat>)
    | Failure(status: Status)
    | ClientError(reason: Reason)
    | ParseError(response: bytes)

  datatype World = World(store: State, session: Auth.Session, out: seq<Line>, closed: bool)

  // -- Rendering -----------------------------------------------------------------------------

  function SpokenFor(r: Reply): Spoken {
    match r
    case StoredOk => STORED
    case NotStored => NOT_STORED
    case Exists => EXISTS
    case NotFound => NOT_FOUND
    case _ => UNEXPECTED
  }

  predicate Unselected(s: Style) { (s.Dump? || s.CacheDump?) && !s.selected }

  function KeysOf(c: Command): seq<Key> {
    match c
    case GetMany(keys) => keys
    case GetAndTouch(keys, _) => keys
    case _ => []
  }

  /** A line for each key found, in the order asked; a miss has none. */
  function Hits(keys: seq<Key>, found: seq<Option<Record>>, tokens: map<Key, nat>): seq<Line> {
    if keys == [] || found == [] then []
    else
      var rest := Hits(keys[1..], found[1..], tokens);
      match found[0]
      case None => rest
      case Some(r) =>
        [Hit(keys[0], r.value, r.flags, if keys[0] in tokens then Some(tokens[keys[0]]) else None)] + rest
  }

  function Rendered(s: Style, c: Command, r: Reply, tokens: map<Key, nat>): seq<Line> {
    match s
    case Hangup => []
    case Storage => [Said(SpokenFor(r))]
    case Deleted => [Said(if r == DeletedOk || r == Invalidated(true) then DELETED else NOT_FOUND)]
    case Touched => [Said(if r.TouchedOk? then TOUCHED else NOT_FOUND)]
    case Counter => [if r.Number? then Figure(r.report.value.Amount()) else Said(NOT_FOUND)]
    case Okay => [Said(OK)]
    case Retrieval(_) => (if r.Values? then Hits(KeysOf(c), r.found, tokens) else []) + [Said(END)]
    case _ =>
      if Unselected(s) then [Answer(s, c, Listing(map[], map[]), map[])] else [Answer(s, c, r, tokens)]
  }

  predicate Named(c: Command, k: Key) {
    match c
    case Get(key) => k == key
    case GetMany(keys) => k in keys
    case GetAndTouch(keys, _) => k in keys
    case Set(x) => k == x.key
    case ListKeys => true
    case _ => false
  }

  /** The tokens a reply displays: a write shows the one it made, a read those it found. */
  function Shown(s: Style, c: Command, before: State, after: State): map<Key, nat> {
    if !ShowsCas(s) then map[]
    else
      var tokens := if c.Set? then after.stamps.tokens else before.stamps.tokens;
      map k | k in tokens && Named(c, k) :: tokens[k]
  }

  function Unless(quiet: bool, lines: seq<Line>): seq<Line> { if quiet then [] else lines }

  // -- One frame -----------------------------------------------------------------------------

  /** Styles rendered by the executor itself, whatever command the parser put beside them. */
  predicate Special(s: Style) { s.Dump? || s.CacheDump? || (s.Statistics? && !s.general) }

  function Target(p: Parsed): Command {
    if p.style.Dump? || p.style.CacheDump? then ListKeys
    else if Special(p.style) then Stats
    else p.command
  }

  function Ran(sv: Server, w: World, p: Parsed): World {
    var (after, result) := Executed(sv.cfg, w.store, Target(p));
    var lines :=
      match result
      case Ok(reply) => Rendered(p.style, Target(p), reply, Shown(p.style, Target(p), w.store, after))
      case Err(status) => [Failure(status)];
    World(after, w.session, w.out + Unless(p.noreply && !Special(p.style), lines), result == Ok(Closing))
  }

  function Refuse(w: World, p: Parsed, reason: Reason): World {
    w.(out := w.out + Unless(p.noreply, [ClientError(reason)]))
  }

  /** The reply to a successful authentication is a store's, with the token of no record. */
  function Welcome(p: Parsed, x: Write): seq<Line> {
    Rendered(p.style, p.command, StoredOk, if ShowsCas(p.style) then map[x.key := 0] else map[])
  }

  /** A frame on a connection that must authenticate first: only a plain `set` carrying credentials
      and `quit` are more than refused. */
  function Knocked(sv: Server, w: World, p: Parsed): World {
    if p.command.Quit? then w.(closed := true)
    else if !(p.command.Set? && p.command.write.mode.Always?) then Refuse(w, p, UnauthenticatedReason)
    else
      match Auth.SplitCredential(p.command.write.value)
      case None =>
        Refuse(w.(session := Auth.Attempted(w.session)), p, BadTokenFormat)
      case Some((name, secret)) =>
        match sv.gate.verify(name, secret)
        case None => Refuse(w.(session := Auth.Attempted(w.session)), p, AuthenticationFailure)
        case Some(id) =>
          w.(session := Auth.Succeeded(w.session, id),
             out := w.out + Unless(p.noreply, Welcome(p, p.command.write)))
  }

  function Handled(sv: Server, w: World, p: Parsed): World {
    if Auth.Locked(sv.gate, w.session) then Knocked(sv, w, p)
    else if !Auth.Allows(sv.gate, w.session, Auth.Needs(p)) then Refuse(w, p, UnauthorizedReason)
    else Ran(sv, w, p)
  }

  function Step(sv: Server, w: World, f: Frame): World {
    if w.closed then w
    else
      match f
      case Decoded(p) => Handled(sv, w, p)
      case Malformed(response) =>
        var line := if Auth.Locked(sv.gate, w.session) then ClientError(UnauthenticatedReason)
                    else ParseError(response);
        w.(out := w.out + [line])
  }

  /** Frames served one at a time, up to and including the first that closes the connection. */
  function Serve(sv: Server, w: World, fs: seq<Frame>): World
    decreases |fs|
  {
    if fs == [] then w else Serve(sv, Step(sv, w, fs[0]), fs[1..])
  }

  // -- Laws ----------------------------------------------------------------------------------

  lemma {:induction false} ServeSplits(sv: Server, w: World, fs: seq<Frame>, gs: seq<Frame>)
    ensures Serve(sv, w, fs + gs) == Serve(sv, Serve(sv, w, fs), gs)
    decreases |fs|
  {
    if fs == [] {
      assert fs + gs == gs;
    } else {
      assert (fs + gs)[1..] == fs[1..] + gs;
      ServeSplits(sv, Step(sv, w, fs[0]), fs[1..], gs);
    }
  }

  lemma {:induction false} ClosedStays(sv: Server, w: World, fs: seq<Frame>)
    requires w.closed
    ensures Serve(sv, w, fs) == w
    decreases |fs|
  {
    if fs != [] { ClosedStays(sv, w, fs[1..]); }
  }

  lemma ServeOne(sv: Server, w: World, f: Frame)
    ensures Serve(sv, w, [f]) == Step(sv, w, f)
  {
    assert [f][1..] == [];
    assert Serve(sv, w, [f]) == Serve(sv, Step(sv, w, f), []);
  }

  /** A reply with the tokens it displays struck out. */
  function Masked(l: Line): Line {
    if l.Answer? then l.(tokens := map[]) else if l.Hit? then l.(token := None) else l
  }

  function MaskedAll(ls: seq<Line>): seq<Line> {
    seq(|ls|, i requires 0 <= i < |ls| => Masked(ls[i]))
  }

  lemma MaskedJoins(a: seq<Line>, b: seq<Line>)
    ensures MaskedAll(a + b) == MaskedAll(a) + MaskedAll(b)
  {
  }

  /** Two worlds that differ in tokens only, held or shown, and whose stamps are twins. */
  ghost predicate Alike(cfg: Config, base: Stamps, v: World, w: World) {
    && v.store.contents == w.store.contents && v.session == w.session && v.closed == w.closed
    && MaskedAll(v.out) == MaskedAll(w.out) && Twin(cfg, base, v.store.stamps, w.store.stamps)
  }

  /** What a frame adds to the output. */
  function Says(sv: Server, w: World, f: Frame): seq<Line> { Step(sv, w.(out := []), f).out }

  lemma StepAppends(sv: Server, w: World, f: Frame)
    ensures Step(sv, w, f) == Step(sv, w.(out := []), f).(out := w.out + Says(sv, w, f))
  {
    hide Executed, Rendered, Shown, Welcome;
  }

  /** A command does the same to twins, unless it is a `cas` with a token from after `base`. */
  lemma TwinExecuted(cfg: Config, base: Stamps, s: State, t: State, cmd: Command)
    requires s.contents == t.contents && Twin(cfg, base, s.stamps, t.stamps) && !AheadCas(cfg, base, cmd)
    ensures
      var (s', r) := Executed(cfg, s, cmd);
      var (t', q) := Executed(cfg, t, cmd);
      s'.contents == t'.contents && r == q && Twin(cfg, base, s'.stamps, t'.stamps)
  {
    hide Perform, Twin;
    TwinsMatchAlike(cfg, base, s, t, cmd);
    TwinCommit(cfg, base, s, t, Perform(cfg, s.contents, cmd, Matches(s, cmd)));
  }

  /** The frame is a `cas` with a token its shard had yet to give out at `base`. */
  ghost predicate LooksAhead(cfg: Config, base: Stamps, f: Frame) {
    f.Decoded? && AheadCas(cfg, base, f.parsed.command)
  }

  lemma {:induction false} HitsMask(keys: seq<Key>, found: seq<Option<Record>>, t: map<Key, nat>, u: map<Key, nat>)
    ensures MaskedAll(Hits(keys, found, t)) == MaskedAll(Hits(keys, found, u))
  {
    if keys != [] && found != [] {
      HitsMask(keys[1..], found[1..], t, u);
      if found[0].Some? {
        var a := Hits(keys, found, t)[..1];
        var b := Hits(keys, found, u)[..1];
        assert Hits(keys, found, t) == a + Hits(keys[1..], found[1..], t);
        assert Hits(keys, found, u) == b + Hits(keys[1..], found[1..], u);
        MaskedJoins(a, Hits(keys[1..], found[1..], t));
        MaskedJoins(b, Hits(keys[1..], found[1..], u));
      }
    }
  }

  lemma RenderedMasks(s: Style, c: Command, r: Reply, t: map<Key, nat>, u: map<Key, nat>)
    ensures MaskedAll(Rendered(s, c, r, t)) == MaskedAll(Rendered(s, c, r, u))
  {
    if s.Retrieval? && r.Values? {
      hide Hits;
      HitsMask(KeysOf(c), r.found, t, u);
      MaskedJoins(Hits(KeysOf(c), r.found, t), [Said(END)]);
      MaskedJoins(Hits(KeysOf(c), r.found, u), [Said(END)]);
    }
  }

  lemma TwinRan(sv: Server, base: Stamps, v: World, w: World, p: Parsed)
    requires v.store.contents == w.store.contents && v.session == w.session
    requires Twin(sv.cfg, base, v.store.stamps, w.store.stamps) && !AheadCas(sv.cfg, base, p.command)
    requires v.out == w.out == []
    ensures Alike(sv.cfg, base, Ran(sv, v, p), Ran(sv, w, p))
    ensures !ShowsCas(p.style) ==> Ran(sv, v, p).out == Ran(sv, w, p).out
  {
    hide Executed, Twin, AheadCas, Rendered, Shown;
    assert !AheadCas(sv.cfg, base, ListKeys) && !AheadCas(sv.cfg, base, Stats) by { NeverAhead(sv.cfg, base); }
    var c := Target(p);
    TwinExecuted(sv.cfg, base, v.store, w.store, c);
    var (v', r) := Executed(sv.cfg, v.store, c);
    var w' := Executed(sv.cfg, w.store, c).0;
    if r.Ok? { RenderedMasks(p.style, c, r.value, Shown(p.style, c, v.store, v'), Shown(p.style, c, w.store, w')); }
    assert !ShowsCas(p.style) ==> Shown(p.style, c, v.store, v') == Shown(p.style, c, w.store, w') by {
      ShowsNothing(p.style, c, v.store, v');
      ShowsNothing(p.style, c, w.store, w');
    }
    var quiet := p.noreply && !Special(p.style);
    var lv := if r.Ok? then Rendered(p.style, c, r.value, Shown(p.style, c, v.store, v')) else [Failure(r.error)];
    var lw := if r.Ok? then Rendered(p.style, c, r.value, Shown(p.style, c, w.store, w')) else [Failure(r.error)];
    assert [] + Unless(quiet, lv) == Unless(quiet, lv) && [] + Unless(quiet, lw) == Unless(quiet, lw);
  }

  lemma ShowsNothing(s: Style, c: Command, before: State, after: State)
    ensures !ShowsCas(s) ==> Shown(s, c, before, after) == map[]
  {
  }

  lemma NeverAhead(cfg: Config, base: Stamps)
    ensures !AheadCas(cfg, base, ListKeys) && !AheadCas(cfg, base, Stats)
  {
  }

  /** A frame does the same to the contents of worlds alike, and says the same but for the tokens it
      shows; one that shows none says the very same. */
  lemma TwinSays(sv: Server, base: Stamps, v: World, w: World, f: Frame)
    requires Alike(sv.cfg, base, v, w) && !LooksAhead(sv.cfg, base, f) && v.out == w.out == []
    ensures Alike(sv.cfg, base, Step(sv, v, f), Step(sv, w, f))
    ensures !ShowsToken(f) ==> Step(sv, v, f).out == Step(sv, w, f).out
  {
    hide Ran, Welcome, Twin;
    if f.Decoded? { TwinRan(sv, base, v, w, f.parsed); }
  }

  lemma TwinStep(sv: Server, base: Stamps, v: World, w: World, f: Frame)
    requires Alike(sv.cfg, base, v, w) && !LooksAhead(sv.cfg, base, f)
    ensures Alike(sv.cfg, base, Step(sv, v, f), Step(sv, w, f))
    ensures v.out == w.out && !ShowsToken(f) ==> Step(sv, v, f).out == Step(sv, w, f).out
  {
    hide Step, MaskedAll, Twin;
    StepAppends(sv, v, f);
    StepAppends(sv, w, f);
    TwinSays(sv, base, v.(out := []), w.(out := []), f);
    MaskedJoins(v.out, Says(sv, v, f));
    MaskedJoins(w.out, Says(sv, w, f));
  }

  /** No frame is a `cas` with a token its shard had yet to give out at `base`. */
  ghost predicate NoneAhead(cfg: Config, base: Stamps, fs: seq<Frame>) {
    forall i :: 0 <= i < |fs| ==> !LooksAhead(cfg, base, fs[i])
  }

  predicate NoneShows(fs: seq<Frame>) { forall i :: 0 <= i < |fs| ==> !ShowsToken(fs[i]) }

  /** Over any run, worlds that differ in tokens only, all of them given out after `base` where they
      differ, lead to worlds that still do and to replies that differ in the tokens shown only; to
      the very same replies if none is shown. The run may hold any `cas` but one that names a token
      from after `base`. */
  lemma {:induction false} TwinServe(sv: Server, base: Stamps, v: World, w: World, fs: seq<Frame>)
    requires Alike(sv.cfg, base, v, w) && NoneAhead(sv.cfg, base, fs)
    ensures Alike(sv.cfg, base, Serve(sv, v, fs), Serve(sv, w, fs))
    ensures v.out == w.out && NoneShows(fs) ==> Serve(sv, v, fs).out == Serve(sv, w, fs).out
    decreases |fs|
  {
    hide Step, Alike, LooksAhead;
    if fs != [] {
      TwinStep(sv, base, v, w, fs[0]);
      TwinServe(sv, base, Step(sv, v, fs[0]), Step(sv, w, fs[0]), fs[1..]);
    }
  }

  lemma NoneAheadOfLater(cfg: Config, low: Stamps, base: Stamps, fs: seq<Frame>)
    requires Above(low, base) && NoneAhead(cfg, low, fs)
    ensures NoneAhead(cfg, base, fs)
  {
    hide Above;
    forall i | 0 <= i < |fs| ensures !LooksAhead(cfg, base, fs[i]) {
      if LooksAhead(cfg, base, fs[i]) { AheadOfLater(cfg, low, base, fs[i].parsed.command); }
    }
  }

  /** The frame's command gets as far as the store. */
  predicate Reaches(sv: Server, s: Auth.Session, f: Frame) {
    f.Decoded? && !Auth.Locked(sv.gate, s) && Auth.Allows(sv.gate, s, Auth.Needs(f.parsed))
  }

  /** Only a frame the gate allows, for the roles it needs, under the identity held when its turn
      comes, can change the store; a frame cannot change the identity once one is held. */
  lemma OnlyAllowedChange(sv: Server, w: World, f: Frame)
    ensures Step(sv, w, f).store != w.store ==> Reaches(sv, w.session, f)
    ensures !Auth.Locked(sv.gate, w.session) ==> Step(sv, w, f).session == w.session
    ensures Auth.Locked(sv.gate, w.session) ==> Step(sv, w, f).store == w.store
  {
  }

  /** On a connection that must authenticate a frame leaves the store alone and says one thing at
      most, nothing if asked for silence; it hangs up only for `quit`; and the one way in is a plain
      set carrying a name and secret the table verifies. */
  lemma LockedFrame(sv: Server, w: World, f: Frame)
    requires Auth.Locked(sv.gate, w.session) && !w.closed
    ensures
      var w' := Step(sv, w, f);
      && w'.store == w.store
      && (w'.closed <==> f.Decoded? && f.parsed.command.Quit?)
      && |w'.out| <= |w.out| + 1 && w.out <= w'.out
      && (f.Decoded? && f.parsed.noreply ==> w'.out == w.out)
      && (w'.session.identity.Some? <==> Authenticates(sv, f))
      && (forall name, secret :: f.Decoded? && Opens(sv, f.parsed.command, name, secret) ==>
            w'.session == w.session.(identity := sv.gate.verify(name, secret)))
      && w'.session.failures as int
         == if PlainTry(f) && !Authenticates(sv, f) && w.session.failures < 0xFFFF_FFFF
            then w.session.failures as int + 1 else w.session.failures as int
  {
    if f.Decoded? && f.parsed.command.Set? {
      var value := f.parsed.command.write.value;
      forall name, secret ensures Auth.SplitCredential(value) == Some((name, secret)) <==> Joined(name, secret, value) {
        Auth.SplitInvertsJoin(name, secret, value);
      }
      if Auth.SplitCredential(value).Some? {
        var (name, secret) := Auth.SplitCredential(value).value;
        assert Joined(name, secret, value);
        assert Step(sv, w, f).session.identity.Some? ==> Opens(sv, f.parsed.command, name, secret);
      }
    }
  }

  /** A frame that may be an attempt to authenticate. */
  predicate PlainTry(f: Frame) { f.Decoded? && f.parsed.command.Set? && f.parsed.command.write.mode.Always? }

  ghost predicate Authenticates(sv: Server, f: Frame) {
    f.Decoded? && exists name, secret :: Opens(sv, f.parsed.command, name, secret)
  }

  ghost predicate NamesSomeone(f: Frame) {
    PlainTry(f) && exists name, secret :: Joined(name, secret, f.parsed.command.write.value)
  }

  /** What such a connection is told: what was wrong with its credentials, or that it must present
      some; and to have stored something when it got in. */
  lemma LockedSays(sv: Server, w: World, f: Frame) returns (line: Line)
    requires Auth.Locked(sv.gate, w.session) && !w.closed
    requires f.Decoded? ==> !f.parsed.noreply && !f.parsed.command.Quit? && !f.parsed.style.Hangup?
    ensures Step(sv, w, f).out == w.out + [line]
    ensures line == ClientError(UnauthenticatedReason) <==> !PlainTry(f)
    ensures line == ClientError(BadTokenFormat) <==> PlainTry(f) && !NamesSomeone(f)
    ensures line == ClientError(AuthenticationFailure) <==> NamesSomeone(f) && !Authenticates(sv, f)
    ensures Authenticates(sv, f) && f.parsed.style.Storage? ==> line == Said(STORED)
    ensures Authenticates(sv, f) && f.parsed.style.Meta? ==>
      line == Answer(f.parsed.style, f.parsed.command, StoredOk,
                     if ShowsCas(f.parsed.style) then map[f.parsed.command.write.key := 0] else map[])
  {
    if PlainTry(f) { Credentials(sv, f); }
    line := Step(sv, w, f).out[|w.out|];
  }

  lemma Credentials(sv: Server, f: Frame)
    requires PlainTry(f)
    ensures
      var split := Auth.SplitCredential(f.parsed.command.write.value);
      && (NamesSomeone(f) <==> split.Some?)
      && (Authenticates(sv, f) <==> split.Some? && sv.gate.verify(split.value.0, split.value.1).Some?)
  {
    var value := f.parsed.command.write.value;
    forall name, secret ensures Auth.SplitCredential(value) == Some((name, secret)) <==> Joined(name, secret, value) {
      Auth.SplitInvertsJoin(name, secret, value);
    }
    if Auth.SplitCredential(value).Some? {
      var (name, secret) := Auth.SplitCredential(value).value;
      assert Joined(name, secret, value);
      assert sv.gate.verify(name, secret).Some? ==> Opens(sv, f.parsed.command, name, secret);
    }
  }

  /** The block is the name, one space and the secret. */
  predicate Joined(name: bytes, secret: bytes, block: bytes) {
    block == name + [32] + secret && name != [] && secret != [] && 32 !in name && 32 !in secret
  }

  predicate Opens(sv: Server, c: Command, name: bytes, secret: bytes) {
    c.Set? && c.write.mode.Always? && Joined(name, secret, c.write.value) && sv.gate.verify(name, secret).Some?
  }

  /** A connection that must authenticate and never does leaves the store as it found it. */
  lemma {:induction false} LockedChangesNothing(sv: Server, w: World, fs: seq<Frame>)
    requires Auth.Locked(sv.gate, Serve(sv, w, fs).session)
    ensures Serve(sv, w, fs).store == w.store && Auth.Locked(sv.gate, w.session)
    decreases |fs|
  {
    if fs != [] {
      LockedChangesNothing(sv, Step(sv, w, fs[0]), fs[1..]);
      OnlyAllowedChange(sv, w, fs[0]);
    }
  }

  lemma {:induction false} UnlockedSession(sv: Server, w: World, fs: seq<Frame>)
    requires !Auth.Locked(sv.gate, w.session)
    ensures Serve(sv, w, fs).session == w.session
    decreases |fs|
  {
    if fs != [] {
      OnlyAllowedChange(sv, w, fs[0]);
      UnlockedSession(sv, Step(sv, w, fs[0]), fs[1..]);
    }
  }

  // -- Plain sets ----------------------------------------------------------------------------

  function WriteOf(f: Frame): Write
    requires PlainSet(f)
  {
    f.parsed.command.write
  }

  predicate AllPlain(fs: seq<Frame>) { forall i :: 0 <= i < |fs| ==> PlainSet(fs[i]) }

  function Writes(fs: seq<Frame>): (xs: seq<Write>)
    requires AllPlain(fs)
    ensures |xs| == |fs| && forall i :: 0 <= i < |fs| ==> xs[i] == WriteOf(fs[i])
    ensures AllDeferrable(xs)
  {
    if fs == [] then [] else [WriteOf(fs[0])] + Writes(fs[1..])
  }

  function VerdictLines(cfg: Config, x: Write, quiet: bool): seq<Line> {
    Unless(quiet, if Verdict(cfg, x).Ok? then [Said(STORED)] else [Failure(Verdict(cfg, x).error)])
  }

  lemma OneByOneStep(cfg: Config, s: State, xs: seq<Write>)
    requires xs != []
    ensures OneByOne(cfg, s, xs) == OneByOne(cfg, Executed(cfg, s, Set(xs[0])).0, xs[1..])
  {
  }

  lemma OwedStep(cfg: Config, out: seq<Line>, fs: seq<Frame>, i: nat)
    requires AllPlain(fs) && i < |fs|
    ensures out + VerdictLines(cfg, WriteOf(fs[i]), fs[i].parsed.noreply) + Owed(cfg, fs[i + 1..])
            == out + Owed(cfg, fs[i..])
  {
    assert fs[i..][1..] == fs[i + 1..];
    assert out + VerdictLines(cfg, WriteOf(fs[i]), fs[i].parsed.noreply) + Owed(cfg, fs[i + 1..])
        == out + (VerdictLines(cfg, WriteOf(fs[i]), fs[i].parsed.noreply) + Owed(cfg, fs[i + 1..]));
  }

  /** The replies a run of plain sets owes, in request order; the store has no say in them. */
  function Owed(cfg: Config, fs: seq<Frame>): seq<Line>
    requires AllPlain(fs)
  {
    if fs == [] then []
    else VerdictLines(cfg, WriteOf(fs[0]), fs[0].parsed.noreply) + Owed(cfg, fs[1..])
  }

  predicate MayWrite(sv: Server, s: Auth.Session) { Auth.Allows(sv.gate, s, Auth.WRITE) }

  lemma PlainStep(sv: Server, w: World, f: Frame)
    requires PlainSet(f) && MayWrite(sv, w.session) && !w.closed
    ensures Step(sv, w, f)
            == World(Executed(sv.cfg, w.store, Set(WriteOf(f))).0, w.session,
                     w.out + VerdictLines(sv.cfg, WriteOf(f), f.parsed.noreply), false)
  {
    VerdictIsFixed(sv.cfg, w.store, WriteOf(f));
  }

  lemma {:induction false} PlainServe(sv: Server, w: World, fs: seq<Frame>)
    requires AllPlain(fs) && MayWrite(sv, w.session) && !w.closed
    ensures Serve(sv, w, fs)
            == World(OneByOne(sv.cfg, w.store, Writes(fs)), w.session, w.out + Owed(sv.cfg, fs), false)
    decreases |fs|
  {
    hide Step, Executed, VerdictLines, MayWrite;
    if fs != [] {
      PlainStep(sv, w, fs[0]);
      var v := Step(sv, w, fs[0]);
      PlainServe(sv, v, fs[1..]);
      assert Writes(fs)[0] == WriteOf(fs[0]) && Writes(fs)[1..] == Writes(fs[1..]);
      assert v.out + Owed(sv.cfg, fs[1..]) == w.out + Owed(sv.cfg, fs);
    }
  }
}
