/** Counter arithmetic on decimal text: the integer and memcached-counter domains. */
module Arithmetic {
  import opened Core
  import Decimal

  datatype Number = Int(signed: i64) | Counter(counter: u64) {
    /** The number reported, as a plain integer. */
    function Amount(): int { if Int? then signed else counter }
    function ToText(): bytes { Decimal.Text(Amount()) }
  }

  datatype Delta =
    | ByCounter(step: u64, decrement: bool)
    | ByInt(delta: i64, lower: i64, upper: i64)

  datatype OnBound = Refuse | Skip | Clamp
  datatype Missing = Miss | CreateAtZero
  datatype Operation = Operation(delta: Delta, onBound: OnBound, missing: Missing)

  datatype Applied = Applied(value: Number, applied: Number, wrote: bool)
  datatype Outcome = Absent | Unchanged(report: Applied) | Store(text: bytes, report: Applied)
  datatype Failure = NotAnInteger | Overflow

  function Checked(v: int): Option<i64> {
    if I64_MIN <= v <= I64_MAX then Some(v) else None
  }

  function StoredAt(value: Number, applied: Number): Outcome {
    Store(value.ToText(), Applied(value, applied, true))
  }

  function EvaluateCounter(step: u64, decrement: bool, current: u64): Outcome {
    var c: int, d: int := current, step;
    var updated := if decrement then Max(c - d, 0) else (c + d) % TWO_64;
    StoredAt(Counter(updated), Counter((updated - c) % TWO_64))
  }

  function EvaluateInt(delta: i64, lower: i64, upper: i64, onBound: OnBound, current: i64)
    : Result<Outcome, Failure>
  {
    var candidate := Checked(current as int + delta as int);
    if candidate.Some? && lower <= candidate.value <= upper then
      Ok(StoredAt(Int(candidate.value), Int(delta)))
    else
      match onBound
      case Refuse => Err(Overflow)
      case Skip => Ok(Unchanged(Applied(Int(current), Int(0), false)))
      case Clamp =>
        var clamped: i64 :=
          match candidate
          case Some(updated) => if updated > upper then upper else lower
          case None => if delta > 0 then upper else lower;
        match Checked(clamped as int - current as int)
        case None => Err(Overflow)
        case Some(applied) => Ok(StoredAt(Int(clamped), Int(applied)))
  }

  /** Decides the outcome from the bytes stored under the key, or their absence. */
  function Evaluate(op: Operation, stored: Option<bytes>): Result<Outcome, Failure> {
    if stored.None? && op.missing == Miss then Ok(Absent)
    else
      match op.delta
      case ByCounter(step, decrement) =>
        (match stored
         case None => Ok(EvaluateCounter(step, decrement, 0))
         case Some(text) =>
           match Decimal.ParseCounter(text)
           case None => Err(NotAnInteger)
           case Some(current) => Ok(EvaluateCounter(step, decrement, current)))
      case ByInt(delta, lower, upper) =>
        match stored
        case None => EvaluateInt(delta, lower, upper, op.onBound, 0)
        case Some(text) =>
          match Decimal.ParseInt(text)
          case None => Err(NotAnInteger)
          case Some(current) => EvaluateInt(delta, lower, upper, op.onBound, current)
  }

  /** The sum where the bounds allow it, else the bound it fell foul of. */
  function Clamped(v: int, lower: int, upper: int): int {
    if v > upper then upper else if v < lower then lower else v
  }

  /** Integer evaluation is exact over the mathematical integers, under every bound policy. */
  lemma IntEvaluationExact(delta: i64, lower: i64, upper: i64, onBound: OnBound, current: i64)
    ensures
      var sum := current as int + delta as int;
      var kept := Clamped(sum, lower, upper);
      var moved := kept - current as int;
      var r := EvaluateInt(delta, lower, upper, onBound, current);
      && (kept == sum || onBound == Clamp ==>
            if I64_MIN <= moved <= I64_MAX
            then r == Ok(Store(Decimal.Text(kept), Applied(Int(kept), Int(moved), true)))
            else r == Err(Overflow))
      && (kept == sum ==> moved == delta)
      && (kept != sum && onBound == Refuse ==> r == Err(Overflow))
      && (kept != sum && onBound == Skip ==>
            r == Ok(Unchanged(Applied(Int(current), Int(0), false))))
  {
  }

  /** A counter moves up by its step and wraps past the largest u64, or down by it and stops at zero;
      it reports the number it stores, and the distance modulo 2^64. */
  lemma CounterEvaluationExact(step: u64, decrement: bool, current: u64)
    ensures
      var sum, rest := current as int + step as int, current as int - step as int;
      var left := if decrement then (if step <= current then rest else 0)
                  else if sum <= U64_MAX then sum else sum - 0x1_0000_0000_0000_0000;
      var moved := left - current as int;
      EvaluateCounter(step, decrement, current)
      == Store(Decimal.Text(left),
               Applied(Counter(left), Counter(if moved >= 0 then moved else moved + 0x1_0000_0000_0000_0000), true))
  {
    hide Decimal.Text;
    var sum := current as int + step as int;
    Wraps(sum);
    var left := if decrement then Max(current as int - step as int, 0)
                else if sum <= U64_MAX then sum else sum - TWO_64;
    Wraps(left - current as int);
  }

  lemma Wraps(v: int)
    requires -TWO_64 <= v < 2 * TWO_64
    ensures v % TWO_64 == if v < 0 then v + TWO_64 else if v < TWO_64 then v else v - TWO_64
  {
  }

  /** The number an operation starts from: zero for an absent key, else what its own domain reads. */
  function Start(op: Operation, stored: Option<bytes>): Option<int> {
    match stored
    case None => Some(0)
    case Some(text) =>
      if op.delta.ByInt? then
        match Decimal.ParseInt(text) { case None => None case Some(v) => Some(v as int) }
      else
        match Decimal.ParseCounter(text) { case None => None case Some(v) => Some(v as int) }
  }

  /** An absent key is a miss or counts as zero, as asked; text that does not read in the operation's
      domain is an error; and anything else goes to the domain's evaluation of the number read. */
  lemma EvaluateExactly(op: Operation, stored: Option<bytes>)
    ensures stored.None? && op.missing.Miss? <==> Evaluate(op, stored) == Ok(Absent)
    ensures Evaluate(op, stored) == Err(NotAnInteger) <==> Start(op, stored).None?
    ensures !(stored.None? && op.missing.Miss?) && Start(op, stored).Some? ==>
      var v := Start(op, stored).value;
      match op.delta
      case ByCounter(step, decrement) =>
        0 <= v <= U64_MAX && Evaluate(op, stored) == Ok(EvaluateCounter(step, decrement, v))
      case ByInt(delta, lower, upper) =>
        I64_MIN <= v <= I64_MAX && Evaluate(op, stored) == EvaluateInt(delta, lower, upper, op.onBound, v)
  {
  }

  /** What one operation leaves stored, and the distance it reports. */
  function Apply(op: Operation, stored: Option<bytes>): (Option<bytes>, int) {
    match Evaluate(op, stored)
    case Ok(Store(text, report)) => (Some(text), report.applied.Amount())
    case Ok(Unchanged(report)) => (stored, report.applied.Amount())
    case _ => (stored, 0)
  }

  function Run(ops: seq<Operation>, stored: Option<bytes>): (Option<bytes>, int) {
    if ops == [] then (stored, 0)
    else
      var (next, moved) := Apply(ops[0], stored);
      var (last, rest) := Run(ops[1..], next);
      (last, moved + rest)
  }

  /** The key is absent, counting as zero, or holds the canonical text of `v`. */
  predicate Holds(stored: Option<bytes>, v: int) {
    if stored.None? then v == 0 else stored.value == Decimal.Text(v)
  }

  ghost predicate Congruent(a: int, b: int) { exists k: int :: a == b + k * TWO_64 }

  lemma IntApply(op: Operation, stored: Option<bytes>, v: i64) returns (v': i64)
    requires Holds(stored, v) && op.delta.ByInt?
    ensures Holds(Apply(op, stored).0, v') && v' == v + Apply(op, stored).1
  {
    Decimal.ParseIntText(v);
    v' := v;
    match Evaluate(op, stored)
    case Ok(Store(text, report)) => v' := report.value.signed;
    case _ =>
  }

  /** Over any run of integer operations the stored text stays canonical and every reported
      increment is accounted for in the integers. */
  lemma {:induction false} IntRunConserves(ops: seq<Operation>, stored: Option<bytes>, v: i64)
    returns (v': i64)
    requires Holds(stored, v)
    requires forall op :: op in ops ==> op.delta.ByInt?
    ensures Holds(Run(ops, stored).0, v')
    ensures v' == v + Run(ops, stored).1
  {
    if ops == [] {
      v' := v;
    } else {
      assert ops[0] in ops;
      var next := IntApply(ops[0], stored, v);
      v' := IntRunConserves(ops[1..], Apply(ops[0], stored).0, next);
    }
  }

  /** Outside i64 the strict reader refuses; outside u64 the counter reader does. */
  lemma ReadersRefuse(v: int)
    ensures (v < I64_MIN || v > I64_MAX) ==> Decimal.ParseInt(Decimal.Text(v)) == None
    ensures v < 0 ==> Decimal.ParseCounter(Decimal.Text(v)) == None
  {
    if v < I64_MIN || v > I64_MAX {
      Decimal.ParseIntExactly(Decimal.Text(v));
      forall w: i64 ensures Decimal.Text(v) != Decimal.Text(w) {
        if Decimal.Text(v) == Decimal.Text(w) { Decimal.TextInjective(v, w); }
      }
    }
    if v < 0 {
      var t := Decimal.Text(v);
      assert t[0] == Decimal.MINUS && Decimal.IsDigit(t[|t| - 1]);
    }
  }

  lemma CounterStep(step: u64, decrement: bool, current: u64)
    ensures EvaluateCounter(step, decrement, current).report.value.Counter?
    ensures
      var o := EvaluateCounter(step, decrement, current);
      o.text == Decimal.Text(o.report.value.counter)
      && Congruent(o.report.value.counter, current + o.report.applied.Amount())
  {
    var updated := EvaluateCounter(step, decrement, current).report.value.counter as int;
    var gap := updated - current as int;
    assert gap % TWO_64 == gap - (gap / TWO_64) * TWO_64;
    assert updated == current as int + gap % TWO_64 + (gap / TWO_64) * TWO_64;
  }

  lemma AnyApply(op: Operation, stored: Option<bytes>, v: int) returns (v': int)
    requires I64_MIN <= v <= U64_MAX && Holds(stored, v)
    ensures I64_MIN <= v' <= U64_MAX && Holds(Apply(op, stored).0, v')
    ensures Congruent(v', v + Apply(op, stored).1)
  {
    hide Evaluate, Congruent, Decimal.Text;
    v' := v;
    ReadersRefuse(v);
    if Evaluate(op, stored).Ok? && Evaluate(op, stored).value.Store? {
      if op.delta.ByInt? {
        StoredIntReads(op, stored, v);
        v' := IntApply(op, stored, v);
      } else {
        v' := CounterApply(op, stored, v);
        return;
      }
    } else if Evaluate(op, stored).Ok? && Evaluate(op, stored).value.Unchanged? {
      UnchangedReports(op, stored);
    }
    SameCongruent(v', v + Apply(op, stored).1);
  }

  lemma SameCongruent(a: int, b: int)
    requires a == b
    ensures Congruent(a, b)
  {
    assert a == b + 0 * TWO_64;
  }

  lemma UnchangedReports(op: Operation, stored: Option<bytes>)
    requires Evaluate(op, stored).Ok? && Evaluate(op, stored).value.Unchanged?
    ensures Apply(op, stored).1 == 0
  {
  }

  lemma StoredIntReads(op: Operation, stored: Option<bytes>, v: int)
    requires op.delta.ByInt? && Holds(stored, v) && Evaluate(op, stored).Ok? && Evaluate(op, stored).value.Store?
    ensures I64_MIN <= v <= I64_MAX
  {
    hide Decimal.Text, Decimal.ParseInt;
    ReadersRefuse(v);
  }

  lemma CounterApply(op: Operation, stored: Option<bytes>, v: int) returns (v': u64)
    requires I64_MIN <= v <= U64_MAX && Holds(stored, v) && !op.delta.ByInt?
    requires Evaluate(op, stored).Ok? && Evaluate(op, stored).value.Store?
    ensures Holds(Apply(op, stored).0, v') && Congruent(v', v + Apply(op, stored).1)
  {
    hide Decimal.Text, Decimal.ParseCounter, Decimal.ParseInt, EvaluateCounter, Congruent;
    ReadersRefuse(v);
    if v >= 0 { Decimal.ParseCounterText(v); }
    CounterStep(op.delta.step, op.delta.decrement, v);
    v' := Evaluate(op, stored).value.report.value.counter;
  }

  /** Over any run mixing both domains on one key, the final value is the initial one plus
      everything reported, modulo 2^64, and the text stays readable by at least one domain. */
  lemma {:induction false} RunConservesModulo(ops: seq<Operation>, stored: Option<bytes>, v: int)
    returns (v': int)
    requires I64_MIN <= v <= U64_MAX && Holds(stored, v)
    ensures I64_MIN <= v' <= U64_MAX && Holds(Run(ops, stored).0, v')
    ensures Congruent(v', v + Run(ops, stored).1)
  {
    if ops == [] {
      v' := v;
      assert v' == v + 0 * TWO_64;
    } else {
      var next := AnyApply(ops[0], stored, v);
      v' := RunConservesModulo(ops[1..], Apply(ops[0], stored).0, next);
      var j: int :| next == v + Apply(ops[0], stored).1 + j * TWO_64;
      var k: int :| v' == next + Run(ops[1..], Apply(ops[0], stored).0).1 + k * TWO_64;
      assert v' == v + Run(ops, stored).1 + (j + k) * TWO_64;
    }
  }
}
