/** The byte-wise listing pattern: a greedy two-index matcher against its declarative meaning. */
module Glob {
  import opened Core

  const STAR: byte := 42
  const QUESTION: byte := 63
  const ESCAPE: byte := 92

  datatype Token = Any | One | Literal(value: byte)

  /** The tokens a pattern spells, or nothing when it ends in a lone escape. */
  function Tokens(pattern: bytes): Option<seq<Token>> {
    if pattern == [] then Some([])
    else if pattern[0] == ESCAPE then
      if |pattern| == 1 then None
      else Prepend(Literal(pattern[1]), Tokens(pattern[2..]))
    else
      Prepend(if pattern[0] == STAR then Any else if pattern[0] == QUESTION then One
              else Literal(pattern[0]),
              Tokens(pattern[1..]))
  }

  function Prepend(token: Token, rest: Option<seq<Token>>): Option<seq<Token>> {
    if rest.None? then None else Some([token] + rest.value)
  }

  /** The language of a token sequence: a star is any run of bytes, everything else is one byte. */
  ghost predicate Spells(tokens: seq<Token>, candidate: bytes)
    decreases |tokens|
  {
    if tokens == [] then candidate == []
    else
      match tokens[0]
      case Any => exists k :: 0 <= k <= |candidate| && Spells(tokens[1..], candidate[k..])
      case One => candidate != [] && Spells(tokens[1..], candidate[1..])
      case Literal(b) => candidate != [] && candidate[0] == b && Spells(tokens[1..], candidate[1..])
  }

  /** What a listing pattern selects: everything when empty, else its language. */
  ghost predicate Selects(pattern: bytes, candidate: bytes) {
    pattern == [] || (Tokens(pattern).Some? && Spells(Tokens(pattern).value, candidate))
  }

  /** The same language read off the raw pattern at positions `p` and `c`. */
  predicate Fits(pattern: bytes, candidate: bytes, p: nat, c: nat)
    requires p <= |pattern| && c <= |candidate|
    decreases |pattern| - p, |candidate| - c
  {
    if p == |pattern| then c == |candidate|
    else if pattern[p] == STAR then
      Fits(pattern, candidate, p + 1, c) || (c < |candidate| && Fits(pattern, candidate, p, c + 1))
    else Takes(pattern, candidate, p, c) && Fits(pattern, candidate, p + Width(pattern, p), c + 1)
  }

  /** The pattern fits from `p` at some candidate position at or after `c`. */
  ghost predicate FitsFrom(pattern: bytes, candidate: bytes, p: nat, c: nat)
    requires p <= |pattern| && c <= |candidate|
  {
    exists k :: c <= k <= |candidate| && Fits(pattern, candidate, p, k)
  }

  lemma {:induction false} StarFits(pattern: bytes, candidate: bytes, p: nat, c: nat)
    requires p < |pattern| && pattern[p] == STAR && c <= |candidate|
    ensures Fits(pattern, candidate, p, c) <==> FitsFrom(pattern, candidate, p + 1, c)
    decreases |candidate| - c
  {
    var q := p + 1;
    if c < |candidate| {
      StarFits(pattern, candidate, p, c + 1);
      if FitsFrom(pattern, candidate, q, c) && !Fits(pattern, candidate, q, c) {
        var k :| c <= k <= |candidate| && Fits(pattern, candidate, q, k);
        assert c + 1 <= k;
      }
    }
  }

  /** Bytes of the token at `p`. */
  function Width(pattern: bytes, p: nat): nat
    requires p < |pattern|
  {
    if pattern[p] == ESCAPE && p + 1 < |pattern| then 2 else 1
  }

  /** The non-star token at `p` accepts the candidate byte at `c`. */
  predicate Takes(pattern: bytes, candidate: bytes, p: nat, c: nat)
    requires p < |pattern| && c <= |candidate|
  {
    && c < |candidate|
    && (|| pattern[p] == QUESTION
        || (pattern[p] == ESCAPE && p + 1 < |pattern| && pattern[p + 1] == candidate[c])
        || (pattern[p] != ESCAPE && pattern[p] != QUESTION && pattern[p] == candidate[c]))
  }

  lemma {:induction false} FitsIsTheLanguage(pattern: bytes, candidate: bytes, p: nat, c: nat)
    requires p <= |pattern| && c <= |candidate|
    ensures Fits(pattern, candidate, p, c)
       <==> Tokens(pattern[p..]).Some? && Spells(Tokens(pattern[p..]).value, candidate[c..])
    decreases |pattern| - p
  {
    if p < |pattern| {
      var rest := Tokens(pattern[p + Width(pattern, p)..]);
      assert pattern[p..][Width(pattern, p)..] == pattern[p + Width(pattern, p)..];
      if pattern[p] == STAR {
        var q := p + 1;
        forall k | c <= k <= |candidate|
          ensures Fits(pattern, candidate, q, k) <==> rest.Some? && Spells(rest.value, candidate[k..])
        {
          FitsIsTheLanguage(pattern, candidate, q, k);
        }
        StarIsTheLanguage(pattern, candidate, p, q, c, rest);
      } else {
        if c < |candidate| {
          assert candidate[c..][1..] == candidate[c + 1..];
          FitsIsTheLanguage(pattern, candidate, p + Width(pattern, p), c + 1);
        }
        if rest.Some? {
          var tokens := Tokens(pattern[p..]);
          assert tokens.Some? ==> tokens.value[1..] == rest.value;
        }
      }
    }
  }

  lemma StarIsTheLanguage(pattern: bytes, candidate: bytes, p: nat, q: nat, c: nat, rest: Option<seq<Token>>)
    requires p < |pattern| && c <= |candidate| && pattern[p] == STAR && q == p + 1
    requires rest == Tokens(pattern[q..])
    requires forall k :: c <= k <= |candidate| ==>
      (Fits(pattern, candidate, q, k) <==> rest.Some? && Spells(rest.value, candidate[k..]))
    ensures Fits(pattern, candidate, p, c)
       <==> Tokens(pattern[p..]).Some? && Spells(Tokens(pattern[p..]).value, candidate[c..])
  {
    hide Fits;
    assert pattern[p..][1..] == pattern[q..];
    StarFits(pattern, candidate, p, c);
    if rest.Some? {
      var tokens := Tokens(pattern[p..]).value;
      assert tokens[1..] == rest.value && tokens[0] == Any;
      if Fits(pattern, candidate, p, c) {
        var k :| c <= k <= |candidate| && Fits(pattern, candidate, q, k);
        assert candidate[c..][k - c..] == candidate[k..];
        assert Spells(tokens[1..], candidate[c..][k - c..]);
      }
      if Spells(tokens, candidate[c..]) {
        var k :| 0 <= k <= |candidate[c..]| && Spells(tokens[1..], candidate[c..][k..]);
        assert candidate[c..][k..] == candidate[c + k..];
        assert Fits(pattern, candidate, q, c + k);
      }
    }
  }

  // -- The language, token by token ----------------------------------------------------------

  /** What each single token selects, in ASCII: `*` anything, `?` one byte, a backslash the byte after
      it, any other byte itself; a lone backslash nothing, and no pattern at all everything. */
  lemma TokenMeans(b: byte, candidate: bytes)
    ensures Selects([], candidate) && Selects([42], candidate) && !Selects([92], candidate)
    ensures Selects([63], candidate) <==> |candidate| == 1
    ensures Selects([92, b], candidate) <==> candidate == [b]
    ensures b !in {42, 63, 92} ==> (Selects([b], candidate) <==> candidate == [b])
  {
    LoneToken([92, b], Literal(b));
    LoneToken([42], Any);
    LoneToken([63], One);
    assert candidate[|candidate|..] == [];
    assert Spells([Any][1..], candidate[|candidate|..]);
    assert Spells([Any], candidate);
    SingleSpells(One, candidate);
    SingleSpells(Literal(b), candidate);
    if b !in {42, 63, 92} { LoneToken([b], Literal(b)); }
  }

  lemma LoneToken(p: bytes, t: Token)
    requires
      || (p == [42] && t == Any)
      || (p == [63] && t == One)
      || (|p| == 2 && p[0] == 92 && t == Literal(p[1]))
      || (|p| == 1 && p[0] !in {42, 63, 92} && t == Literal(p[0]))
    ensures Tokens(p) == Some([t])
  {
    assert p[|p|..] == [];
    assert Tokens([]) == Some([]) && [t] + [] == [t];
    assert Prepend(t, Some([])) == Some([t]);
  }

  lemma SingleSpells(t: Token, candidate: bytes)
    requires !t.Any?
    ensures Spells([t], candidate) <==> |candidate| == 1 && (t.Literal? ==> candidate[0] == t.value)
  {
    assert [t][1..] == [];
    if candidate != [] { assert Spells([], candidate[1..]) <==> candidate[1..] == []; }
  }

  /** A pattern put together from two selects what splits into a part for each. With the meaning of
      the single tokens this is the whole language. */
  lemma Concatenates(p: bytes, q: bytes, candidate: bytes)
    requires p != [] && q != [] && Tokens(p).Some?
    ensures Selects(p + q, candidate)
       <==> exists k :: 0 <= k <= |candidate| && Selects(p, candidate[..k]) && Selects(q, candidate[k..])
  {
    TokensJoin(p, q);
    if Tokens(q).Some? {
      var a, b := Tokens(p).value, Tokens(q).value;
      SpellsJoin(a, b, candidate);
      if Spells(a + b, candidate) {
        var k :| 0 <= k <= |candidate| && Spells(a, candidate[..k]) && Spells(b, candidate[k..]);
        assert Selects(p, candidate[..k]) && Selects(q, candidate[k..]);
      }
      if k :| 0 <= k <= |candidate| && Selects(p, candidate[..k]) && Selects(q, candidate[k..]) {
        assert Spells(a, candidate[..k]) && Spells(b, candidate[k..]);
      }
    }
  }

  /** The first token of a pattern, and its width, do not depend on what follows the pattern. */
  lemma FirstToken(p: bytes, q: bytes) returns (t: Token, n: nat)
    requires p != [] && Tokens(p).Some?
    ensures 0 < n <= |p| && Tokens(p) == Prepend(t, Tokens(p[n..]))
    ensures Tokens(p + q) == Prepend(t, Tokens(p[n..] + q))
  {
    n := if p[0] == ESCAPE then 2 else 1;
    t := if p[0] == ESCAPE then Literal(p[1]) else if p[0] == STAR then Any
         else if p[0] == QUESTION then One else Literal(p[0]);
    assert (p + q)[n..] == p[n..] + q;
  }

  lemma {:induction false} TokensJoin(p: bytes, q: bytes)
    requires Tokens(p).Some?
    ensures Tokens(p + q) == if Tokens(q).None? then None else Some(Tokens(p).value + Tokens(q).value)
    decreases |p|
  {
    if p == [] {
      assert p + q == q;
      if Tokens(q).Some? { assert [] + Tokens(q).value == Tokens(q).value; }
    } else {
      hide Tokens;
      var t, n := FirstToken(p, q);
      TokensJoin(p[n..], q);
      if Tokens(q).Some? {
        var rest := Tokens(p[n..]).value;
        assert [t] + (rest + Tokens(q).value) == [t] + rest + Tokens(q).value;
      }
    }
  }

  lemma {:induction false} SpellsJoin(a: seq<Token>, b: seq<Token>, candidate: bytes)
    ensures Spells(a + b, candidate)
       <==> exists k :: 0 <= k <= |candidate| && Spells(a, candidate[..k]) && Spells(b, candidate[k..])
    decreases |a|
  {
    if a == [] {
      assert a + b == b && candidate[..0] == [] && candidate[0..] == candidate;
      assert Spells([], candidate[..0]);
    } else {
      assert (a + b)[1..] == a[1..] + b && (a + b)[0] == a[0];
      if a[0].Any? { AnyJoins(a, b, candidate); } else { OneJoins(a, b, candidate); }
    }
  }

  lemma {:induction false} AnyJoins(a: seq<Token>, b: seq<Token>, candidate: bytes)
    requires a != [] && a[0].Any? && (a + b)[1..] == a[1..] + b && (a + b)[0] == a[0]
    ensures Spells(a + b, candidate)
       <==> exists k :: 0 <= k <= |candidate| && Spells(a, candidate[..k]) && Spells(b, candidate[k..])
    decreases |a|, 0
  {
    if Spells(a + b, candidate) {
      var i :| 0 <= i <= |candidate| && Spells(a[1..] + b, candidate[i..]);
      SpellsJoin(a[1..], b, candidate[i..]);
      var j :| 0 <= j <= |candidate[i..]| && Spells(a[1..], candidate[i..][..j]) && Spells(b, candidate[i..][j..]);
      var k := i + j;
      assert candidate[i..][..j] == candidate[..k][i..] && candidate[i..][j..] == candidate[k..];
      assert Spells(a, candidate[..k]) && Spells(b, candidate[k..]);
    }
    if k :| 0 <= k <= |candidate| && Spells(a, candidate[..k]) && Spells(b, candidate[k..]) {
      var i :| 0 <= i <= |candidate[..k]| && Spells(a[1..], candidate[..k][i..]);
      assert candidate[..k][i..] == candidate[i..][..k - i] && candidate[k..] == candidate[i..][k - i..];
      SpellsJoin(a[1..], b, candidate[i..]);
      assert Spells(a[1..] + b, candidate[i..]);
    }
  }

  lemma {:induction false} OneJoins(a: seq<Token>, b: seq<Token>, candidate: bytes)
    requires a != [] && !a[0].Any? && (a + b)[1..] == a[1..] + b && (a + b)[0] == a[0]
    ensures Spells(a + b, candidate)
       <==> exists k :: 0 <= k <= |candidate| && Spells(a, candidate[..k]) && Spells(b, candidate[k..])
    decreases |a|, 0
  {
    if candidate != [] {
      var rest := candidate[1..];
      SpellsJoin(a[1..], b, rest);
      if Spells(a + b, candidate) {
        var j :| 0 <= j <= |rest| && Spells(a[1..], rest[..j]) && Spells(b, rest[j..]);
        assert candidate[..j + 1][1..] == rest[..j] && candidate[j + 1..] == rest[j..];
        assert Spells(a, candidate[..j + 1]) && Spells(b, candidate[j + 1..]);
      }
      if k :| 0 <= k <= |candidate| && Spells(a, candidate[..k]) && Spells(b, candidate[k..]) {
        assert candidate[..k][1..] == rest[..k - 1] && candidate[k..] == rest[k - 1..];
        assert Spells(a[1..], rest[..k - 1]) && Spells(b, rest[k - 1..]);
      }
    }
  }

  /** Rejects exactly the patterns that have no token reading. */
  method Validate(pattern: bytes) returns (ok: bool)
    ensures ok <==> Tokens(pattern).Some?
  {
    var i := 0;
    while i < |pattern|
      invariant 0 <= i <= |pattern|
      invariant Tokens(pattern).Some? <==> Tokens(pattern[i..]).Some?
    {
      if pattern[i] == ESCAPE {
        if i + 1 >= |pattern| {
          return false;
        }
        assert pattern[i..][2..] == pattern[i + 2..];
        i := i + 2;
      } else {
        assert pattern[i..][1..] == pattern[i + 1..];
        i := i + 1;
      }
    }
    assert pattern[i..] == [];
    ok := true;
  }

  /** No star lies between `from` and `to`: the tokens there consume `n` bytes, whatever they start at. */
  ghost predicate Segment(pattern: bytes, from: nat, to: nat, n: nat)
    requires from <= to <= |pattern|
    decreases |pattern| - from
  {
    if from == to then n == 0
    else n > 0 && pattern[from] != STAR && from + Width(pattern, from) <= to
         && Segment(pattern, from + Width(pattern, from), to, n - 1)
  }

  lemma {:induction false} SegmentExtends(pattern: bytes, from: nat, to: nat, n: nat)
    requires from <= to < |pattern| && pattern[to] != STAR && Segment(pattern, from, to, n)
    ensures Segment(pattern, from, to + Width(pattern, to), n + 1)
    decreases |pattern| - from
  {
    if from < to {
      SegmentExtends(pattern, from + Width(pattern, from), to, n - 1);
    }
  }

  /** Fitting from the head of a segment means fitting past it, the segment's length further on. */
  lemma {:induction false} SegmentConsumes(pattern: bytes, candidate: bytes, from: nat, to: nat, n: nat, c: nat)
    requires from <= to <= |pattern| && c <= |candidate| && Segment(pattern, from, to, n)
    requires Fits(pattern, candidate, from, c)
    ensures c + n <= |candidate| && Fits(pattern, candidate, to, c + n)
    decreases |pattern| - from
  {
    if from < to {
      SegmentConsumes(pattern, candidate, from + Width(pattern, from), to, n - 1, c + 1);
    }
  }

  /** Meeting a second star, the attempts still open for the first one reduce to the second alone. */
  lemma LaterStarSuffices(pattern: bytes, candidate: bytes, star: nat, retry: nat, p: nat, c: nat)
    requires star < p < |pattern| && pattern[p] == STAR && retry <= c <= |candidate|
    requires Segment(pattern, star + 1, p, c - retry)
    requires Fits(pattern, candidate, star + 1, retry) <==> Fits(pattern, candidate, p, c)
    ensures FitsFrom(pattern, candidate, star + 1, retry) <==> FitsFrom(pattern, candidate, p + 1, c)
  {
    var q := star + 1;
    if FitsFrom(pattern, candidate, q, retry) {
      var k :| retry <= k <= |candidate| && Fits(pattern, candidate, q, k);
      SegmentConsumes(pattern, candidate, q, p, c - retry, k);
      StarFits(pattern, candidate, p, k + (c - retry));
    }
    StarFits(pattern, candidate, p, c);
  }

  /** A remainder fits the empty candidate exactly when it is all stars. */
  lemma {:induction false} OnlyStarsFitNothing(pattern: bytes, candidate: bytes, p: nat)
    requires p <= |pattern|
    ensures Fits(pattern, candidate, p, |candidate|)
       <==> forall i :: p <= i < |pattern| ==> pattern[i] == STAR
    decreases |pattern| - p
  {
    if p < |pattern| {
      OnlyStarsFitNothing(pattern, candidate, p + 1);
    }
  }

  /** Where the matcher stands: the last star seen, the candidate byte it is being tried at, and
      the two positions reached from there. */
  datatype Walk = Walk(star: Option<nat>, retry: nat, p: nat, c: nat)

  ghost predicate Placed(pattern: bytes, candidate: bytes, w: Walk) {
    && w.p <= |pattern| && w.retry <= w.c <= |candidate|
    && (w.star.None? ==> w.retry == 0)
    && (w.star.Some? ==>
          w.star.value < w.p && Segment(pattern, w.star.value + 1, w.p, w.c - w.retry))
  }

  /** The walk can still succeed exactly when the pattern fits: the current attempt stands for
      the remembered star's, and every earlier attempt of that star has been ruled out. */
  ghost predicate Sound(pattern: bytes, candidate: bytes, w: Walk)
    requires Placed(pattern, candidate, w)
  {
    if w.star.None? then Fits(pattern, candidate, 0, 0) <==> Fits(pattern, candidate, w.p, w.c)
    else
      && (Fits(pattern, candidate, w.star.value + 1, w.retry) <==> Fits(pattern, candidate, w.p, w.c))
      && (Fits(pattern, candidate, 0, 0) <==> FitsFrom(pattern, candidate, w.star.value + 1, w.retry))
  }

  lemma StarStep(pattern: bytes, candidate: bytes, w: Walk)
    requires Placed(pattern, candidate, w) && Sound(pattern, candidate, w)
    requires w.p < |pattern| && pattern[w.p] == STAR
    ensures
      var w' := Walk(Some(w.p), w.c, w.p + 1, w.c);
      Placed(pattern, candidate, w') && Sound(pattern, candidate, w')
  {
    if w.star.Some? {
      LaterStarSuffices(pattern, candidate, w.star.value, w.retry, w.p, w.c);
    } else {
      StarFits(pattern, candidate, w.p, w.c);
    }
  }

  lemma TakeStep(pattern: bytes, candidate: bytes, w: Walk)
    requires Placed(pattern, candidate, w) && Sound(pattern, candidate, w)
    requires w.p < |pattern| && pattern[w.p] != STAR && Takes(pattern, candidate, w.p, w.c)
    ensures
      var w' := w.(p := w.p + Width(pattern, w.p), c := w.c + 1);
      Placed(pattern, candidate, w') && Sound(pattern, candidate, w')
  {
    if w.star.Some? {
      SegmentExtends(pattern, w.star.value + 1, w.p, w.c - w.retry);
    }
  }

  lemma RetryStep(pattern: bytes, candidate: bytes, w: Walk)
    requires Placed(pattern, candidate, w) && Sound(pattern, candidate, w)
    requires w.star.Some? && w.c < |candidate| && !Fits(pattern, candidate, w.p, w.c)
    ensures
      var w' := Walk(w.star, w.retry + 1, w.star.value + 1, w.retry + 1);
      Placed(pattern, candidate, w') && Sound(pattern, candidate, w')
  {
    var q := w.star.value + 1;
    if FitsFrom(pattern, candidate, q, w.retry) {
      var k :| w.retry <= k <= |candidate| && Fits(pattern, candidate, q, k);
      assert w.retry + 1 <= k;
    }
  }

  lemma FinalStep(pattern: bytes, candidate: bytes, w: Walk)
    requires Placed(pattern, candidate, w) && Sound(pattern, candidate, w) && w.c == |candidate|
    ensures Fits(pattern, candidate, 0, 0) <==> forall i :: w.p <= i < |pattern| ==> pattern[i] == STAR
  {
    OnlyStarsFitNothing(pattern, candidate, w.p);
    if w.star.Some? {
      var q := w.star.value + 1;
      if FitsFrom(pattern, candidate, q, w.retry) {
        var k :| w.retry <= k <= |candidate| && Fits(pattern, candidate, q, k);
        SegmentConsumes(pattern, candidate, q, w.p, w.c - w.retry, k);
      }
    }
  }

  lemma WalkStarts(pattern: bytes, candidate: bytes)
    ensures
      var w := Walk(None, 0, 0, 0);
      Placed(pattern, candidate, w) && Sound(pattern, candidate, w)
  {
  }

  lemma WalkFails(pattern: bytes, candidate: bytes, w: Walk)
    requires Placed(pattern, candidate, w) && Sound(pattern, candidate, w)
    requires w.star.None? && !Fits(pattern, candidate, w.p, w.c)
    ensures !Fits(pattern, candidate, 0, 0)
  {
  }

  /** Strictly grows with every iteration, so it bounds their number. */
  function Progress(width: nat, retry: nat, p: nat): nat { retry * (width + 1) + p }

  function Bound(width: nat, n: nat): nat { (n + 1) * (width + 1) }

  /** One more attempt is worth more than any position inside an attempt. */
  lemma Progresses(width: nat, retry: nat, p: nat, retry': nat, p': nat)
    requires p <= width && (retry < retry' || (retry == retry' && p < p'))
    ensures Progress(width, retry, p) < Progress(width, retry', p')
  {
    if retry < retry' {
      var extra := retry' - retry - 1;
      assert retry' * (width + 1) == (retry + 1) * (width + 1) + extra * (width + 1);
      assert extra * (width + 1) >= 0;
    }
  }

  lemma ProgressBound(width: nat, n: nat)
    ensures Progress(width, n, 0) + width < Bound(width, n)
  {
  }

  lemma StuckFitsNot(pattern: bytes, candidate: bytes, p: nat, c: nat)
    requires p <= |pattern| && c < |candidate|
    requires p < |pattern| ==> pattern[p] != STAR && !Takes(pattern, candidate, p, c)
    ensures !Fits(pattern, candidate, p, c)
  {
  }

  /** The greedy walk: exact, and within (|candidate| + 1) * (|pattern| + 1) iterations, those of the
      scan for trailing stars included. */
  method Matches(pattern: bytes, candidate: bytes) returns (r: bool, ghost steps: nat)
    ensures r <==> Selects(pattern, candidate)
    ensures Tokens(pattern).None? ==> !r
    ensures steps <= Bound(|pattern|, |candidate|)
  {
    steps := 0;
    if pattern == [] {
      return true, steps;
    }
    hide Fits, Sound, Segment, Takes, Tokens, Spells, Progress, Bound;
    WalkStarts(pattern, candidate);
    assert pattern[0..] == pattern && candidate[0..] == candidate;
    FitsIsTheLanguage(pattern, candidate, 0, 0);

    var p: nat, c: nat := 0, 0;
    var star: Option<nat>, retry: nat := None, 0;
    while c < |candidate|
      invariant Placed(pattern, candidate, Walk(star, retry, p, c))
      invariant Sound(pattern, candidate, Walk(star, retry, p, c))
      invariant steps <= Progress(|pattern|, retry, p) && steps <= Progress(|pattern|, |candidate|, 0)
      decreases |candidate| - retry, |pattern| - p
    {
      ghost var w := Walk(star, retry, p, c);
      Progresses(|pattern|, retry, p, |candidate|, 0);
      steps := steps + 1;
      if p < |pattern| && pattern[p] == STAR {
        StarStep(pattern, candidate, w);
        Progresses(|pattern|, retry, p, c, p + 1);
        star, retry, p := Some(p), c, p + 1;
      } else if p < |pattern| && Takes(pattern, candidate, p, c) {
        TakeStep(pattern, candidate, w);
        Progresses(|pattern|, retry, p, retry, p + Width(pattern, p));
        p, c := p + Width(pattern, p), c + 1;
      } else if star.None? {
        StuckFitsNot(pattern, candidate, p, c);
        WalkFails(pattern, candidate, w);
        ProgressBound(|pattern|, |candidate|);
        return false, steps;
      } else {
        StuckFitsNot(pattern, candidate, p, c);
        RetryStep(pattern, candidate, w);
        Progresses(|pattern|, retry, p, retry + 1, star.value + 1);
        p, retry, c := star.value + 1, retry + 1, retry + 1;
      }
    }
    ProgressBound(|pattern|, |candidate|);
    FinalStep(pattern, candidate, Walk(star, retry, p, c));
    ghost var scanned: nat;
    r, scanned := OnlyStars(pattern, p);
    steps := steps + scanned;
  }

  /** The scan for trailing stars. */
  method OnlyStars(pattern: bytes, p: nat) returns (r: bool, ghost steps: nat)
    requires p <= |pattern|
    ensures r <==> forall i :: p <= i < |pattern| ==> pattern[i] == STAR
    ensures steps <= |pattern|
  {
    steps := 0;
    var i := p;
    while i < |pattern| && pattern[i] == STAR
      invariant p <= i <= |pattern| && forall j :: p <= j < i ==> pattern[j] == STAR
      invariant steps == i - p
    {
      steps := steps + 1;
      i := i + 1;
    }
    r := i == |pattern|;
  }
}
