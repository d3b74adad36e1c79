/** What a client reads back, frame by frame, in terms of what the store holds and who is asking. */
module Replies {
  import opened Core
  import opened Commands
  import opened Store
  import opened SetMany
  import opened Serving
  import opened StoreLaws
  import opened Histories
  import Arithmetic
  import Auth

  /** An open connection that need not authenticate, or has and holds every role the frame needs. */
  predicate Admitted(sv: Server, w: World, p: Parsed) {
    && !w.closed
    && match w.session.identity
       case None => !sv.gate.required
       case Some(id) => id.roles & Auth.Needs(p) == Auth.Needs(p)
  }

  lemma AdmittedRuns(sv: Server, w: World, p: Parsed)
    requires Admitted(sv, w, p)
    ensures Step(sv, w, Decoded(p)) == Serving.Ran(sv, w, p)
  {
  }

  /** The frame adds exactly these lines, or none if it asked for silence, and leaves the connection as
      it was and the store as its command leaves it. */
  ghost predicate Adds(sv: Server, w: World, p: Parsed, lines: seq<Line>) {
    var w' := Step(sv, w, Decoded(p));
    && w'.out == w.out + (if p.noreply then [] else lines)
    && w'.session == w.session && !w'.closed && w'.store == Executed(sv.cfg, w.store, p.command).0
  }

  // -- Storage -------------------------------------------------------------------------------

  /** The key holds this very token. */
  predicate Bears(s: State, k: Key, token: nat) { k in s.stamps.tokens && s.stamps.tokens[k] == token }

  /** The verb's own condition on what a read would find. */
  predicate Guarded(s: State, x: Write, was: Option<Record>) {
    match x.mode
    case Always => true
    case Add => was.None?
    case Replace => was.Some?
    case Append => was.Some?
    case Prepend => was.Some?
    case Cas(token) => was.Some? && Bears(s, x.key, token)
  }

  /** A storage verb says one word, and that word says what happened: STORED exactly when its guard
      held, EXISTS exactly when a `cas` found the key with another token, NOT_FOUND exactly when it
      did not find it, NOT_STORED for the other guards; unless the write is over a limit. */
  lemma StorageSays(sv: Server, w: World, p: Parsed) returns (line: Line)
    requires Admitted(sv, w, p) && p.style.Storage? && p.command.Set?
    ensures Adds(sv, w, p, [line])
    ensures
      var x := p.command.write;
      var was := Find(sv.cfg, w.store.contents, x.key);
      var joined := (x.mode.Append? || x.mode.Prepend?) && was.Some?;
      if |x.tags| > sv.cfg.maxTags then line == Failure(BadRequest)
      else if |x.value| + (if joined then |was.value.value| else 0) > sv.cfg.maxValue then line == Failure(TooLarge)
      else
        && line.Said? && (line.word.UNEXPECTED? <==> x.returnPrevious)
        && (!x.returnPrevious ==>
              && (line.word.STORED? <==> Guarded(w.store, x, was))
              && (line.word.EXISTS? <==> x.mode.Cas? && was.Some? && !Bears(w.store, x.key, x.mode.token))
              && (line.word.NOT_FOUND? <==> x.mode.Cas? && was.None?)
              && (line.word.NOT_STORED? <==> !x.mode.Cas? && !Guarded(w.store, x, was)))
  {
    hide Perform;
    AdmittedRuns(sv, w, p);
    var x := p.command.write;
    SetIsSeen(sv.cfg, w.store.contents, x, Matches(w.store, p.command), x.key);
    var r := Executed(sv.cfg, w.store, p.command).1;
    line := if r.Ok? then Said(SpokenFor(r.value)) else Failure(r.error);
  }

  // -- Retrieval -----------------------------------------------------------------------------

  /** How many of the first `n` keys a read finds. */
  function FoundBefore(cfg: Config, c: Contents, keys: seq<Key>, n: nat): nat
    requires n <= |keys|
  {
    if n == 0 then 0 else FoundBefore(cfg, c, keys, n - 1) + (if Find(cfg, c, keys[n - 1]).Some? then 1 else 0)
  }

  function ShownToken(s: State, k: Key, withCas: bool): Option<nat> {
    if withCas && k in s.stamps.tokens then Some(s.stamps.tokens[k]) else None
  }

  /** The lines are those of the keys found, in the order asked, each with its value and flags and,
      if asked for, the token it has. */
  ghost predicate ShowsFound(cfg: Config, s: State, keys: seq<Key>, withCas: bool, lines: seq<Line>) {
    && |lines| == FoundBefore(cfg, s.contents, keys, |keys|)
    && forall i :: 0 <= i < |keys| && Find(cfg, s.contents, keys[i]).Some? ==>
         ShownAt(cfg, s, keys, withCas, lines, i)
  }

  ghost predicate ShownAt(cfg: Config, s: State, keys: seq<Key>, withCas: bool, lines: seq<Line>, i: nat)
    requires i < |keys| && Find(cfg, s.contents, keys[i]).Some?
  {
    var r := Find(cfg, s.contents, keys[i]).value;
    var at := FoundBefore(cfg, s.contents, keys, i);
    at < |lines| && lines[at] == Hit(keys[i], r.value, r.flags, ShownToken(s, keys[i], withCas))
  }

  /** A retrieval shows exactly the keys a read finds, and ends. */
  lemma RetrievalSays(sv: Server, w: World, p: Parsed, keys: seq<Key>) returns (lines: seq<Line>)
    requires Admitted(sv, w, p) && p.style.Retrieval?
    requires p.command == GetMany(keys) || (p.command.GetAndTouch? && p.command.keys == keys)
    ensures Adds(sv, w, p, lines + [Said(END)])
    ensures ShowsFound(sv.cfg, w.store, keys, p.style.withCas, lines)
  {
    hide Perform;
    AdmittedRuns(sv, w, p);
    var c := w.store.contents;
    RepliesMean(sv.cfg, c, p.command, Matches(w.store, p.command));
    var (after, r) := Executed(sv.cfg, w.store, p.command);
    var tokens := Shown(p.style, p.command, w.store, after);
    lines := Hits(keys, r.value.found, tokens);
    forall i | 0 <= i < |keys| ensures (if keys[i] in tokens then Some(tokens[keys[i]]) else None)
                                     == ShownToken(w.store, keys[i], p.style.withCas) {}
    assert r.value.found[0..] == r.value.found && keys[0..] == keys;
    HitsShow(sv.cfg, w.store, keys, r.value.found, tokens, p.style.withCas, |keys|);
  }

  lemma {:induction false} HitsJoin(keys: seq<Key>, found: seq<Option<Record>>, tokens: map<Key, nat>, n: nat)
    requires |keys| == |found| && n <= |keys|
    ensures Hits(keys, found, tokens) == Hits(keys[..n], found[..n], tokens) + Hits(keys[n..], found[n..], tokens)
    decreases n
  {
    if n > 0 {
      HitsJoin(keys[1..], found[1..], tokens, n - 1);
      assert keys[..n][1..] == keys[1..][..n - 1] && found[..n][1..] == found[1..][..n - 1];
      assert keys[1..][n - 1..] == keys[n..] && found[1..][n - 1..] == found[n..];
    } else {
      assert keys[0..] == keys && found[0..] == found;
    }
  }

  lemma OneHit(k: Key, f: Option<Record>, tokens: map<Key, nat>)
    ensures Hits([k], [f], tokens)
            == if f.None? then []
               else [Hit(k, f.value.value, f.value.flags, if k in tokens then Some(tokens[k]) else None)]
  {
    var keys: seq<Key> := [k];
    assert keys[1..] == [];
    assert Hits(keys[1..], [f][1..], tokens) == [];
  }

  lemma {:induction false} HitsShow(cfg: Config, s: State, keys: seq<Key>, found: seq<Option<Record>>,
                                    tokens: map<Key, nat>, withCas: bool, n: nat)
    requires |keys| == |found| && n <= |keys|
    requires forall i :: 0 <= i < |keys| ==> found[i] == Find(cfg, s.contents, keys[i])
    requires forall i :: 0 <= i < |keys| ==>
      (if keys[i] in tokens then Some(tokens[keys[i]]) else None) == ShownToken(s, keys[i], withCas)
    ensures
      var lines := Hits(keys[..n], found[..n], tokens);
      && |lines| == FoundBefore(cfg, s.contents, keys, n)
      && forall i :: 0 <= i < n && Find(cfg, s.contents, keys[i]).Some? ==> ShownAt(cfg, s, keys, withCas, lines, i)
    ensures n == |keys| ==> keys[..n] == keys && found[..n] == found
    decreases n
  {
    hide Find, ShownToken;
    if n > 0 {
      var last := n - 1;
      HitsShow(cfg, s, keys, found, tokens, withCas, last);
      var ks, fs := keys[..n], found[..n];
      HitsJoin(ks, fs, tokens, last);
      assert ks[..last] == keys[..last] && fs[..last] == found[..last];
      assert ks[last..] == [keys[last]] && fs[last..] == [found[last]];
      OneHit(keys[last], found[last], tokens);
      var front := Hits(keys[..last], found[..last], tokens);
      var lines := Hits(ks, fs, tokens);
      forall i | 0 <= i < n && Find(cfg, s.contents, keys[i]).Some? ensures ShownAt(cfg, s, keys, withCas, lines, i) {
        if i < last { assert ShownAt(cfg, s, keys, withCas, front, i); }
      }
    }
  }

  // -- One-word replies ----------------------------------------------------------------------

  /** Deleting, touching and flushing say whether there was anything there. */
  lemma WordSays(sv: Server, w: World, p: Parsed) returns (line: Line)
    requires Admitted(sv, w, p)
    requires
      || (p.style.Deleted? && (p.command.Delete? || p.command.DeleteByTag?))
      || (p.style.Touched? && p.command.Touch?)
      || (p.style.Okay? && p.command.Flush?)
    ensures Adds(sv, w, p, [line])
    ensures
      var c := w.store.contents;
      match p.command
      case Delete(k) => line == Said(if Find(sv.cfg, c, k).Some? then DELETED else NOT_FOUND)
      case DeleteByTag(n) => line == Said(if n in c.generations then DELETED else NOT_FOUND)
      case Touch(k, _) => line == Said(if Find(sv.cfg, c, k).Some? then TOUCHED else NOT_FOUND)
      case _ => line == if sv.cfg.flushEnabled then Said(OK) else Failure(Unauthorized)
  {
    hide Perform, Find;
    AdmittedRuns(sv, w, p);
    RepliesMean(sv.cfg, w.store.contents, p.command, Matches(w.store, p.command));
    var lines := Serving.Ran(sv, w.(out := []), p.(noreply := false)).out;
    line := lines[0];
    assert [] + [line] == [line];
  }

  /** A counter says the number it has come to, or that there is none. */
  lemma CounterSays(sv: Server, w: World, p: Parsed) returns (line: Line)
    requires Admitted(sv, w, p) && p.style.Counter? && p.command.Count? && p.command.op.delta.ByCounter?
    ensures Adds(sv, w, p, [line])
    ensures
      var op := p.command.op;
      var was := Find(sv.cfg, w.store.contents, p.command.key);
      var start := Arithmetic.Start(op, TextOf(was));
      if was.None? && op.missing.Miss? then line == Said(NOT_FOUND)
      else if start.None? then line == Failure(NotNumeric)
      else if Counted(sv.cfg, op, was).None? then line == Failure(TooLarge)
      else line == Figure(CounterLeft(start.value, op.delta.step, op.delta.decrement))
  {
    hide Perform, Find, Arithmetic.Start;
    AdmittedRuns(sv, w, p);
    CountIsSeen(sv.cfg, w.store.contents, p.command.key, p.command.op, p.command.ttl);
    CountOverlong(sv.cfg, w.store.contents, p.command.key, p.command.op, p.command.ttl, Matches(w.store, p.command));
    var r := Executed(sv.cfg, w.store, p.command).1;
    line := if r.Err? then Failure(r.error) else if r.value.Number? then Figure(r.value.report.value.Amount()) else Said(NOT_FOUND);
  }

  /** The memcached domain refuses a number only for the length of its text. */
  lemma CountOverlong(cfg: Config, c: Contents, k: Key, op: Arithmetic.Operation, ttl: TtlChange, matches: bool)
    requires op.delta.ByCounter?
    ensures
      var was := Find(cfg, c, k);
      && Perform(cfg, c, Count(k, op, ttl), matches) == Perform(cfg, c, Count(k, op, ttl), false)
      && (!(was.None? && op.missing.Miss?) && Arithmetic.Start(op, TextOf(was)).Some? && Counted(cfg, op, was).None? ==>
            Perform(cfg, c, Count(k, op, ttl), matches).reply == Err(TooLarge))
  {
    hide Find, Arithmetic.Start, Arithmetic.Evaluate, NumberLeft, Distance;
    var was := Find(cfg, c, k);
    CountEvaluates(op, TextOf(was));
    if Arithmetic.Start(op, TextOf(was)).Some? { CounterAlwaysLeaves(op, Arithmetic.Start(op, TextOf(was)).value); }
  }

  lemma CounterAlwaysLeaves(op: Arithmetic.Operation, v: int)
    requires op.delta.ByCounter?
    ensures NumberLeft(op, v) == Some(CounterLeft(v, op.delta.step, op.delta.decrement))
  {
  }

  /** Hanging up says nothing, and only `quit` hangs up. */
  lemma QuitCloses(sv: Server, w: World, p: Parsed)
    requires Admitted(sv, w, p) && !Special(p.style)
    ensures Step(sv, w, Decoded(p)).closed <==> p.command.Quit?
    ensures p.style.Hangup? && p.command.Quit? ==>
      Step(sv, w, Decoded(p)).out == w.out && Step(sv, w, Decoded(p)).store == w.store
  {
    AdmittedRuns(sv, w, p);
    assert w.store.stamps.tokens - {} == w.store.stamps.tokens;
  }

  // -- Meta replies and dumps ----------------------------------------------------------------

  /** The tokens a meta reply may show: of the keys its command names, as they are after a write and
      as they were before a read. */
  ghost predicate ShowsTokens(p: Parsed, before: State, after: State, tokens: map<Key, nat>) {
    var from := if p.command.Set? then after else before;
    forall k ::
      && (k in tokens <==> ShownIn(p, k) && k in from.stamps.tokens)
      && (k in tokens ==> tokens[k] == from.stamps.tokens[k])
  }

  predicate ShownIn(p: Parsed, k: Key) {
    && p.style.Meta?
    && (p.style.verb.MetaDebug? || (p.style.wantCas && (p.style.verb.MetaGet? || p.style.verb.MetaSet?)))
    && match p.command
       case Get(key) => k == key
       case GetMany(keys) => k in keys
       case GetAndTouch(keys, _) => k in keys
       case Set(x) => k == x.key
       case ListKeys => true
       case _ => false
  }

  /** A meta command is answered with what its command answers, and with tokens only where its verb and
      flags ask for them. */
  lemma MetaSays(sv: Server, w: World, p: Parsed) returns (line: Line)
    requires Admitted(sv, w, p) && p.style.Meta? && !p.command.Quit?
    ensures Adds(sv, w, p, [line])
    ensures
      var (after, r) := Executed(sv.cfg, w.store, p.command);
      match r
      case Err(status) => line == Failure(status)
      case Ok(reply) =>
        && line.Answer? && line.style == p.style && line.command == p.command && line.reply == reply
        && ShowsTokens(p, w.store, after, line.tokens)
  {
    AdmittedRuns(sv, w, p);
    var (after, r) := Executed(sv.cfg, w.store, p.command);
    NotClosing(sv.cfg, w.store, p.command);
    hide Executed;
    line := if r.Ok? then Answer(p.style, p.command, r.value, Shown(p.style, p.command, w.store, after)) else Failure(r.error);
  }

  lemma NotClosing(cfg: Config, s: State, c: Command)
    ensures Executed(cfg, s, c).1 == Ok(Closing) <==> c.Quit?
  {
  }

  /** A dump answers whatever it was asked to keep quiet about: with every key a read would find if its
      class was selected, and every token if it is a full one, with none if not, and with a refusal
      where listing is off. */
  lemma DumpSays(sv: Server, w: World, p: Parsed) returns (line: Line)
    requires Admitted(sv, w, p) && (p.style.Dump? || p.style.CacheDump?)
    ensures Step(sv, w, Decoded(p)) == w.(out := w.out + [line])
    ensures
      if !sv.cfg.listingEnabled then line == Failure(Unauthorized)
      else
        && line.Answer? && line.style == p.style && line.reply.Listing?
        && forall k ::
             Find(sv.cfg, Contents(line.reply.records, line.reply.generations), k)
             == if p.style.selected then Find(sv.cfg, w.store.contents, k) else None
    ensures line.Answer? ==>
      line.tokens == if p.style.selected && p.style.Dump? && p.style.full then w.store.stamps.tokens else map[]
  {
    AdmittedRuns(sv, w, p);
    assert w.store.stamps.tokens - {} == w.store.stamps.tokens;
    line := Step(sv, w, Decoded(p)).out[|w.out|];
    assert (map k | k in w.store.stamps.tokens :: w.store.stamps.tokens[k]) == w.store.stamps.tokens;
  }

  /** Statistics and the version are answered with what their commands answer, and a section of the
      statistics even when asked for silence. */
  lemma ReportSays(sv: Server, w: World, p: Parsed)
    requires Admitted(sv, w, p)
    requires (p.style.Statistics? && p.command.Stats?) || (p.style.VersionLine? && p.command.Version?)
    ensures
      var quiet := p.noreply && !(p.style.Statistics? && !p.style.general);
      var reply := if p.command.Stats? then StatsReply else VersionReply;
      Step(sv, w, Decoded(p)) == w.(out := w.out + if quiet then [] else [Answer(p.style, p.command, reply, map[])])
  {
    AdmittedRuns(sv, w, p);
    assert w.store.stamps.tokens - {} == w.store.stamps.tokens;
  }

  // -- Refusals ------------------------------------------------------------------------------

  /** A connection whose identity lacks a role the frame needs is told so, unless it asked for silence,
      and nothing else comes of the frame. */
  lemma RefusalSays(sv: Server, w: World, p: Parsed)
    requires !w.closed && w.session.identity.Some?
    requires w.session.identity.value.roles & Auth.Needs(p) != Auth.Needs(p)
    ensures Step(sv, w, Decoded(p)) == w.(out := w.out + if p.noreply then [] else [ClientError(UnauthorizedReason)])
  {
  }

  /** A malformed command is answered with its own error, or with a demand to authenticate first. */
  lemma MalformedSays(sv: Server, w: World, response: bytes)
    requires !w.closed
    ensures
      var locked := w.session.identity.None? && sv.gate.required;
      Step(sv, w, Malformed(response))
      == w.(out := w.out + [if locked then ClientError(UnauthenticatedReason) else ParseError(response)])
  {
  }
}
