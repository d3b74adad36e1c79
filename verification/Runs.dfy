/** A block measured into runs: maximal stretches of commands of one kind. */
module Runs {
  import opened Core
  import opened Commands
  import opened Framing

  datatype RunKind = Reads | Writing | Other
  datatype Run = Run(len: nat, count: nat, kind: RunKind)

  function KindOf(f: Frame): RunKind {
    if f.Malformed? then Other
    else if InlineSafe(f.parsed.command) then Reads
    else if f.parsed.style.Storage? && Awaitable(f.parsed.command) then Writing
    else Other
  }

  /** Adds one command, extending the run in progress when the kind matches. */
  function Extended(runs: seq<Run>, kind: RunKind, len: nat): seq<Run> {
    var last := |runs| - 1;
    if runs != [] && runs[last].kind == kind
    then runs[last := Run(runs[last].len + len, runs[last].count + 1, kind)]
    else runs + [Run(len, 1, kind)]
  }

  /** How many commands the first `i` runs hold. */
  function Before(runs: seq<Run>, i: nat): nat
    requires i <= |runs|
  {
    if i == 0 then 0 else Before(runs, i - 1) + runs[i - 1].count
  }

  /** The `i`-th run covers the bytes of its commands exactly. A run of reads or of writes holds
      nothing else, and if `strict` neither does any other. */
  ghost predicate RunAt(parse: Parser, b: bytes, runs: seq<Run>, i: nat, strict: bool)
    requires Framed(parse) && i < |runs|
  {
    var fs, from, to := Frames(parse, b), Before(runs, i), Before(runs, i + 1);
    && from < to <= |fs|
    && Start(parse, b, from) + runs[i].len == Start(parse, b, to)
    && (strict || !runs[i].kind.Other? ==>
          forall j :: from <= j < to ==> KindOf(fs[j]) == runs[i].kind)
  }

  /** The runs cover the first `k` commands, each exactly once, in order. */
  ghost predicate Layout(parse: Parser, b: bytes, runs: seq<Run>, k: nat, strict: bool)
    requires Framed(parse)
  {
    && Before(runs, |runs|) == k
    && forall i :: 0 <= i < |runs| ==> RunAt(parse, b, runs, i, strict)
  }

  ghost predicate Sharp(runs: seq<Run>, i: nat)
    requires 0 < i < |runs|
  {
    runs[i].kind != runs[i - 1].kind
  }

  lemma {:induction false} BeforeSame(runs: seq<Run>, runs': seq<Run>, i: nat)
    requires i <= |runs| && i <= |runs'| && runs[..i] == runs'[..i]
    ensures Before(runs, i) == Before(runs', i)
    decreases i
  {
    if i > 0 {
      assert runs[i - 1] == runs[..i][i - 1] == runs'[i - 1];
      assert runs[..i - 1] == runs[..i][..i - 1] == runs'[..i - 1];
      BeforeSame(runs, runs', i - 1);
    }
  }

  lemma ExtendedKeeps(parse: Parser, b: bytes, runs: seq<Run>, runs': seq<Run>, i: nat)
    requires Framed(parse) && i < |runs| && i < |runs'| && runs[..i + 1] == runs'[..i + 1]
    requires RunAt(parse, b, runs, i, true)
    ensures RunAt(parse, b, runs', i, true)
  {
    hide Framed, Frames, Start;
    assert runs[i] == runs[..i + 1][i] == runs'[i];
    assert runs[..i] == runs[..i + 1][..i] == runs'[..i];
    BeforeSame(runs, runs', i);
    BeforeSame(runs, runs', i + 1);
  }

  /** Measuring one more command keeps the runs a layout of what has been measured. */
  lemma ExtendLayout(parse: Parser, b: bytes, runs: seq<Run>, k: nat)
    requires Framed(parse) && k < |Frames(parse, b)| && Layout(parse, b, runs, k, true)
    ensures
      var len := Start(parse, b, k + 1) - Start(parse, b, k);
      len >= 0 && Layout(parse, b, Extended(runs, KindOf(Frames(parse, b)[k]), len), k + 1, true)
  {
    hide Framed, Frames, Start;
    StartRises(parse, b, k, k + 1);
    var kind, len := KindOf(Frames(parse, b)[k]), Start(parse, b, k + 1) - Start(parse, b, k);
    var runs' := Extended(runs, kind, len);
    var last := |runs'| - 1;
    assert runs[..last] == runs'[..last];
    BeforeSame(runs, runs', last);
    forall i | 0 <= i < |runs'| ensures RunAt(parse, b, runs', i, true) {
      if i < last {
        assert runs[..i + 1] == runs[..last][..i + 1] == runs'[..i + 1];
        assert RunAt(parse, b, runs, i, true);
        ExtendedKeeps(parse, b, runs, runs', i);
      } else if last < |runs| {
        assert RunAt(parse, b, runs, last, true);
      }
    }
  }

  lemma ExtendSharp(runs: seq<Run>, kind: RunKind, len: nat)
    requires forall i :: 0 < i < |runs| ==> Sharp(runs, i)
    ensures var runs' := Extended(runs, kind, len); forall i :: 0 < i < |runs'| ==> Sharp(runs', i)
  {
    var runs' := Extended(runs, kind, len);
    forall i | 0 < i < |runs'| ensures Sharp(runs', i) {
      if i < |runs| { assert Sharp(runs, i); }
    }
  }
}
