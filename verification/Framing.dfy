/** Where commands end. The grammar itself is a parameter: any parser whose answer for a command
    depends only on the bytes that command consumes. */
module Framing {
  import opened Core
  import opened Commands

  datatype Parse = Complete(frame: Frame, consumed: nat) | Incomplete | Fatal

  type Parser = bytes -> Parse

  ghost predicate FramedAt(parse: Parser, b: bytes) {
    parse(b).Complete? ==>
      && 0 < parse(b).consumed <= |b|
      && (forall m :: parse(b).consumed <= m <= |b| ==> parse(b[..m]) == parse(b))
  }

  ghost predicate Framed(parse: Parser) { forall b :: FramedAt(parse, b) }

  /** The whole commands at the front of a buffer. */
  ghost function Frames(parse: Parser, b: bytes): seq<Frame>
    requires Framed(parse)
    decreases |b|
  {
    assert FramedAt(parse, b);
    if b == [] || !parse(b).Complete? then []
    else [parse(b).frame] + Frames(parse, b[parse(b).consumed..])
  }

  /** Nothing but whole commands. */
  ghost predicate Whole(parse: Parser, b: bytes)
    requires Framed(parse)
    decreases |b|
  {
    assert FramedAt(parse, b);
    b == [] || (parse(b).Complete? && Whole(parse, b[parse(b).consumed..]))
  }

  /** Where the `j`-th command begins. */
  ghost function Start(parse: Parser, b: bytes, j: nat): nat
    requires Framed(parse) && j <= |Frames(parse, b)|
    decreases j
  {
    assert FramedAt(parse, b);
    if j == 0 then 0 else parse(b).consumed + Start(parse, b[parse(b).consumed..], j - 1)
  }

  lemma Consumes(parse: Parser, b: bytes)
    requires Framed(parse) && parse(b).Complete?
    ensures 0 < parse(b).consumed <= |b|
    ensures forall m :: parse(b).consumed <= m <= |b| ==> parse(b[..m]) == parse(b)
  {
    assert FramedAt(parse, b);
  }

  lemma NextFrame(parse: Parser, b: bytes, fs: seq<Frame>, m: nat)
    requires Framed(parse) && b != [] && m <= |fs| && Frames(parse, b) == fs[m..]
    ensures parse(b).Complete? ==>
      && 0 < parse(b).consumed <= |b| && m < |fs| && fs[m] == parse(b).frame
      && Frames(parse, b[parse(b).consumed..]) == fs[m + 1..]
    ensures !parse(b).Complete? ==> m == |fs|
  {
    hide Framed, FramedAt;
    var tail := fs[m..];
    if parse(b).Complete? {
      Consumes(parse, b);
      assert tail[0] == fs[m] && tail[1..] == fs[m + 1..];
    }
  }

  lemma NoFrames(parse: Parser)
    requires Framed(parse)
    ensures Frames(parse, []) == []
  {
  }

  lemma {:induction false} StartInside(parse: Parser, b: bytes, j: nat)
    requires Framed(parse) && j <= |Frames(parse, b)|
    ensures Start(parse, b, j) <= |b|
    decreases j
  {
    hide Framed, FramedAt;
    if j > 0 {
      Consumes(parse, b);
      StartInside(parse, b[parse(b).consumed..], j - 1);
    }
  }

  lemma {:induction false} StartRises(parse: Parser, b: bytes, i: nat, j: nat)
    requires Framed(parse) && i <= j <= |Frames(parse, b)|
    ensures Start(parse, b, i) <= Start(parse, b, j)
    decreases j
  {
    hide Framed, FramedAt;
    if i > 0 {
      Consumes(parse, b);
      StartRises(parse, b[parse(b).consumed..], i - 1, j - 1);
    }
  }

  /** From the `j`-th command on, the buffer holds the commands from the `j`-th on. */
  lemma {:induction false} FramesFrom(parse: Parser, b: bytes, j: nat)
    requires Framed(parse) && j <= |Frames(parse, b)|
    ensures Start(parse, b, j) <= |b|
    ensures Frames(parse, b[Start(parse, b, j)..]) == Frames(parse, b)[j..]
    ensures j < |Frames(parse, b)| ==>
      var rest := b[Start(parse, b, j)..];
      rest != [] && parse(rest).Complete? && Start(parse, b, j + 1) == Start(parse, b, j) + parse(rest).consumed
    decreases j
  {
    hide Framed, FramedAt;
    StartInside(parse, b, j);
    if j == 0 {
      assert b[0..] == b;
    } else {
      Consumes(parse, b);
      var rest := b[parse(b).consumed..];
      FramesFrom(parse, rest, j - 1);
      assert b[Start(parse, b, j)..] == rest[Start(parse, rest, j - 1)..];
    }
  }

  lemma {:induction false} PrefixFrames(parse: Parser, b: bytes, j: nat)
    requires Framed(parse) && j <= |Frames(parse, b)|
    ensures Start(parse, b, j) <= |b|
    ensures Frames(parse, b[..Start(parse, b, j)]) == Frames(parse, b)[..j]
    ensures Whole(parse, b[..Start(parse, b, j)])
    decreases j
  {
    hide Framed, FramedAt;
    StartInside(parse, b, j);
    if j > 0 {
      Consumes(parse, b);
      var n := parse(b).consumed;
      var rest, slice := b[n..], b[..Start(parse, b, j)];
      PrefixFrames(parse, rest, j - 1);
      assert parse(slice) == parse(b);
      assert slice[n..] == rest[..Start(parse, rest, j - 1)];
    }
  }

  /** Cutting where commands end cuts the commands: a slice between two of them holds exactly the
      commands between, and nothing but whole ones. */
  lemma {:induction false} SliceFrames(parse: Parser, b: bytes, i: nat, j: nat)
    requires Framed(parse) && i <= j <= |Frames(parse, b)|
    ensures Start(parse, b, i) <= Start(parse, b, j) <= |b|
    ensures Frames(parse, b[Start(parse, b, i)..Start(parse, b, j)]) == Frames(parse, b)[i..j]
    ensures Whole(parse, b[Start(parse, b, i)..Start(parse, b, j)])
    decreases j
  {
    hide Framed, FramedAt, Whole;
    StartInside(parse, b, j);
    StartRises(parse, b, i, j);
    if i == 0 {
      PrefixFrames(parse, b, j);
      assert b[0..Start(parse, b, j)] == b[..Start(parse, b, j)];
      assert Frames(parse, b)[0..j] == Frames(parse, b)[..j];
    } else {
      Consumes(parse, b);
      var rest := b[parse(b).consumed..];
      SliceFrames(parse, rest, i - 1, j - 1);
      assert b[Start(parse, b, i)..Start(parse, b, j)]
          == rest[Start(parse, rest, i - 1)..Start(parse, rest, j - 1)];
    }
  }

  // -- A stream ------------------------------------------------------------------------------

  /** A complete command stays what it is when bytes follow it. */
  ghost predicate Extends(parse: Parser) {
    forall b, c :: parse(b).Complete? ==> parse(b + c) == parse(b)
  }

  /** What is left once the whole commands at the front are gone. */
  ghost function Leftover(parse: Parser, b: bytes): bytes
    requires Framed(parse)
    decreases |b|
  {
    assert FramedAt(parse, b);
    if b == [] || !parse(b).Complete? then b else Leftover(parse, b[parse(b).consumed..])
  }

  lemma {:induction false} LeftoverStarts(parse: Parser, b: bytes)
    requires Framed(parse)
    ensures Start(parse, b, |Frames(parse, b)|) <= |b|
    ensures Leftover(parse, b) == b[Start(parse, b, |Frames(parse, b)|)..]
    decreases |b|
  {
    hide Framed, FramedAt;
    StartInside(parse, b, |Frames(parse, b)|);
    if b != [] && parse(b).Complete? {
      Consumes(parse, b);
      var rest := b[parse(b).consumed..];
      LeftoverStarts(parse, rest);
      assert Frames(parse, b)[1..] == Frames(parse, rest);
    }
  }

  /** Bytes that arrive later continue exactly where the whole commands before them ended. */
  lemma {:induction false} FramesExtend(parse: Parser, b: bytes, c: bytes)
    requires Framed(parse) && Extends(parse)
    ensures Frames(parse, b + c) == Frames(parse, b) + Frames(parse, Leftover(parse, b) + c)
    ensures Leftover(parse, b + c) == Leftover(parse, Leftover(parse, b) + c)
    decreases |b|
  {
    hide Framed, FramedAt;
    if b != [] && parse(b).Complete? {
      Consumes(parse, b);
      var n := parse(b).consumed;
      FramesExtend(parse, b[n..], c);
      assert (b + c)[n..] == b[n..] + c;
    }
  }

  // -- Lines ---------------------------------------------------------------------------------

  const NEWLINE: byte := 10
  const MAX_LINE_LEN: nat := 16384

  function Newline(b: bytes): (i: nat)
    ensures i <= |b| && (i < |b| ==> b[i] == NEWLINE) && NEWLINE !in b[..i]
  {
    if b == [] || b[0] == NEWLINE then 0 else 1 + Newline(b[1..])
  }

  /** Where a line ends is looked for before its length is judged. */
  function ParseLine(b: bytes): Parse {
    if Newline(b) < |b| then Complete(Malformed(b[..Newline(b)]), Newline(b) + 1)
    else if |b| > MAX_LINE_LEN then Fatal
    else Incomplete
  }

  lemma NewlineUnique(b: bytes, i: nat)
    requires i < |b| && b[i] == NEWLINE && NEWLINE !in b[..i]
    ensures Newline(b) == i
  {
    if Newline(b) != i { assert false; }
  }

  /** Splitting off lines is a parser in the sense used here. */
  lemma LinesAreFramed()
    ensures Framed(ParseLine) && Extends(ParseLine)
  {
    forall b ensures FramedAt(ParseLine, b) {
      var i := Newline(b);
      if i < |b| {
        forall m | i + 1 <= m <= |b| ensures ParseLine(b[..m]) == ParseLine(b) {
          assert b[..m][..i] == b[..i];
          NewlineUnique(b[..m], i);
        }
      }
    }
    forall b, c | ParseLine(b).Complete? ensures ParseLine(b + c) == ParseLine(b) {
      var i := Newline(b);
      assert (b + c)[..i] == b[..i];
      NewlineUnique(b + c, i);
    }
  }

  /** How a stream is cut can matter: a line over the limit is a command if its end arrives with it,
      and ends the connection if the limit is passed first. */
  lemma LongLineDependsOnTheCut(line: bytes)
    requires |line| > 16384 && 10 !in line
    ensures ParseLine(line).Fatal? && ParseLine(line + [10]) == Complete(Malformed(line), |line| + 1)
    ensures ParseLine(line[..16384]).Incomplete?
  {
    var b := line + [NEWLINE];
    assert NEWLINE !in line[..16384];
    assert b[..|line|] == line;
    NewlineUnique(b, |line|);
  }
}
