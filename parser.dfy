/**
 * The cron expression compiler of src/parser.rs: a five-field
 * `minute hour day month weekday` expression becomes one bitmask per field.
 *
 * A bitmask is modelled as the set of its set bit positions: bit `b` of the
 * Rust `u64`/`u32`/`u16`/`u8` is set exactly when `b` is in the set,
 * `set_bit` is insertion and `|` is union. Every bit the compiler sets lies
 * in its field's range (CompiledBitsInRange), so the casts to narrower
 * integer types in `parse` lose nothing.
 */
module CronParser {
  import opened Wrappers
  import opened Text

  type Mask = set<nat>

  datatype CronSchedule = CronSchedule(minute: Mask, hour: Mask, day: Mask, month: Mask, weekday: Mask)

  /** The inclusive range `(start, end)` of bit positions a field accepts. */
  datatype FieldRange = FieldRange(start: nat, end: nat)

  // The table built by `CronParser::new`.
  const MINUTES := FieldRange(0, 59)
  const HOURS := FieldRange(0, 23)
  const DAYS := FieldRange(1, 31)
  const MONTHS := FieldRange(1, 12)
  const WEEKDAYS := FieldRange(0, 6)
  const FIELD_RANGES: seq<FieldRange> := [MINUTES, HOURS, DAYS, MONTHS, WEEKDAYS]

  /** The error classes of `parse`; each names the offending comma part. */
  datatype CronError =
    | ExpectedFiveFields(got: nat)
    | InvalidStep(part: Bytes)
    | InvalidRange(part: Bytes)
    | InvalidValue(part: Bytes)

  const STAR_ONLY: Bytes := [STAR]
  const STEP_PREFIX: Bytes := [STAR, SLASH]

  /** `parse_u8`: Rust's `u8::from_str` (so `+7` is accepted). */
  function ParseU8(value: Bytes): (r: Option<nat>)
    ensures r.Some? ==> r.value < 256
  {
    ParseUnsigned(value, 255)
  }

  /** `set_bit`: `mask | (1 << bit)`. */
  function SetBit(mask: Mask, bit: nat): Mask {
    mask + {bit}
  }

  /** The bits `a..=b`. */
  function Span(a: nat, b: nat): (r: Mask)
    ensures forall x :: x in r <==> a <= x <= b
    decreases b + 1 - a
  {
    if a > b then {} else {a} + Span(a + 1, b)
  }

  /** The bits visited by `while v <= end { set_bit(v); v += step }`, with
    * unbounded `v` (see StepLoopAsWritten for the `u8` loop). */
  function StepBits(v: nat, end: nat, step: nat): Mask
    requires step > 0
    decreases if v <= end then end + 1 - v else 0
  {
    if v > end then {} else {v} + StepBits(v + step, end, step)
  }

  /** The bits one comma-separated part sets, or its error. A zero step is
    * rejected as an invalid step (see Findings: the code as written loops
    * forever on it). */
  function PartBits(part: Bytes, range: FieldRange): Result<Mask, CronError> {
    if part == STAR_ONLY then Ok(Span(range.start, range.end))
    else if |part| >= 2 && part[..2] == STEP_PREFIX then
      match ParseU8(part[2..])
      case None => Err(InvalidStep(part))
      case Some(step) =>
        if step == 0 then Err(InvalidStep(part))
        else Ok(StepBits(range.start, range.end, step))
    else if DASH in part then
      var pieces := Split(part, DASH);
      if |pieces| != 2 then Err(InvalidRange(part))
      else
        match (ParseU8(pieces[0]), ParseU8(pieces[1]))
        case (Some(a), Some(b)) =>
          if a > b || a < range.start || b > range.end then Err(InvalidRange(part))
          else Ok(Span(a, b))
        case _ => Err(InvalidRange(part))
    else
      match ParseU8(part)
      case None => Err(InvalidValue(part))
      case Some(v) =>
        if v < range.start || v > range.end then Err(InvalidValue(part))
        else Ok({v})
  }

  /** The parts compiled left to right: the first failing part's error, or
    * the union of all their bits. */
  function PartsBits(parts: seq<Bytes>, range: FieldRange): Result<Mask, CronError>
    decreases |parts|
  {
    if parts == [] then Ok({})
    else
      match PartsBits(parts[..|parts| - 1], range)
      case Err(e) => Err(e)
      case Ok(mask) =>
        match PartBits(parts[|parts| - 1], range)
        case Err(e) => Err(e)
        case Ok(bits) => Ok(mask + bits)
  }

  /** One field: its text split on commas. */
  function FieldBits(text: Bytes, range: FieldRange): Result<Mask, CronError> {
    PartsBits(Split(text, COMMA), range)
  }

  /** The whole expression: `expr.trim().split_whitespace()` must give five
    * fields, compiled in the order minute, hour, day, month, weekday. */
  function Compile(expr: Bytes): Result<CronSchedule, CronError> {
    var fields := Words(Trimmed(expr));
    if |fields| != 5 then Err(ExpectedFiveFields(|fields|))
    else CompileFields(fields)
  }

  /** Five fields compiled in order; the first failure wins. */
  function CompileFields(fields: seq<Bytes>): Result<CronSchedule, CronError>
    requires |fields| == 5
  {
      match FieldBits(fields[0], MINUTES)
      case Err(e) => Err(e)
      case Ok(minute) =>
        match FieldBits(fields[1], HOURS)
        case Err(e) => Err(e)
        case Ok(hour) =>
          match FieldBits(fields[2], DAYS)
          case Err(e) => Err(e)
          case Ok(day) =>
            match FieldBits(fields[3], MONTHS)
            case Err(e) => Err(e)
            case Ok(month) =>
              match FieldBits(fields[4], WEEKDAYS)
              case Err(e) => Err(e)
              case Ok(weekday) => Ok(CronSchedule(minute, hour, day, month, weekday))
  }

  // ---------------------------------------------------------------------
  // The compiler as the source runs it

  /** `for v in a..=b { set_bit(&mut mask, v) }` */
  method SetSpan(mask: Mask, a: nat, b: nat) returns (m: Mask)
    ensures m == mask + Span(a, b)
  {
    m := mask;
    var v := a;
    while v <= b
      invariant a <= v
      invariant v > b ==> v == a || v == b + 1
      invariant forall x :: x in m <==> x in mask || a <= x < v
      decreases b + 1 - v
    {
      m := SetBit(m, v);
      v := v + 1;
    }
    assert forall x :: x in m <==> x in mask + Span(a, b);
  }

  /** `let mut v = start; while v <= end { set_bit(&mut mask, v); v += step; }` */
  method SetSteps(mask: Mask, start: nat, end: nat, step: nat) returns (m: Mask)
    requires step > 0
    ensures m == mask + StepBits(start, end, step)
  {
    m := mask;
    var v := start;
    while v <= end
      invariant m + StepBits(v, end, step) == mask + StepBits(start, end, step)
      decreases end + 1 - v
    {
      m := SetBit(m, v);
      v := v + step;
    }
  }

  /** `parse_field`: compile one field's text against its range. */
  method ParseField(part: Bytes, range: FieldRange) returns (res: Result<Mask, CronError>)
    ensures res == FieldBits(part, range)
  {
    var mask: Mask := {};
    var parts := Split(part, COMMA);
    for i := 0 to |parts|
      invariant PartsBits(parts[..i], range) == Ok(mask)
    {
      var p := parts[i];
      assert parts[..i + 1][..i] == parts[..i];
      if p == STAR_ONLY {
        mask := SetSpan(mask, range.start, range.end);
      } else if |p| >= 2 && p[..2] == STEP_PREFIX {
        var step := ParseU8(p[2..]);
        if step.None? || step.value == 0 {
          PartsErrorPropagates(parts, i + 1, range);
          return Err(InvalidStep(p));
        }
        mask := SetSteps(mask, range.start, range.end, step.value);
      } else if DASH in p {
        var pieces := Split(p, DASH);
        if |pieces| != 2 {
          PartsErrorPropagates(parts, i + 1, range);
          return Err(InvalidRange(p));
        }
        var a := ParseU8(pieces[0]);
        var b := ParseU8(pieces[1]);
        if a.None? || b.None? {
          PartsErrorPropagates(parts, i + 1, range);
          return Err(InvalidRange(p));
        }
        if a.value > b.value || a.value < range.start || b.value > range.end {
          PartsErrorPropagates(parts, i + 1, range);
          return Err(InvalidRange(p));
        }
        mask := SetSpan(mask, a.value, b.value);
      } else {
        var val := ParseU8(p);
        if val.None? || val.value < range.start || val.value > range.end {
          PartsErrorPropagates(parts, i + 1, range);
          return Err(InvalidValue(p));
        }
        mask := SetBit(mask, val.value);
      }
    }
    assert parts[..|parts|] == parts;
    return Ok(mask);
  }

  /** `CronParser::parse`. */
  method Parse(expr: Bytes) returns (res: Result<CronSchedule, CronError>)
    ensures res == Compile(expr)
  {
    var parts := Words(Trimmed(expr));
    if |parts| != 5 {
      return Err(ExpectedFiveFields(|parts|));
    }
    var minute := ParseField(parts[0], MINUTES);
    if minute.Err? { return Err(minute.error); }
    var hour := ParseField(parts[1], HOURS);
    if hour.Err? { return Err(hour.error); }
    var day := ParseField(parts[2], DAYS);
    if day.Err? { return Err(day.error); }
    var month := ParseField(parts[3], MONTHS);
    if month.Err? { return Err(month.error); }
    var weekday := ParseField(parts[4], WEEKDAYS);
    if weekday.Err? { return Err(weekday.error); }
    return Ok(CronSchedule(minute.value, hour.value, day.value, month.value, weekday.value));
  }

  // ---------------------------------------------------------------------
  // Properties

  /** Once a prefix of the parts fails, the field fails with that error. */
  lemma {:induction false} PartsErrorPropagates(parts: seq<Bytes>, k: nat, range: FieldRange)
    requires k <= |parts|
    requires PartsBits(parts[..k], range).Err?
    ensures PartsBits(parts, range) == PartsBits(parts[..k], range)
    decreases |parts| - k
  {
    if k < |parts| {
      assert parts[..k + 1][..k] == parts[..k];
      PartsErrorPropagates(parts, k + 1, range);
    } else {
      assert parts[..k] == parts;
    }
  }

  /** `a..=b` has `b - a + 1` bits. */
  lemma {:induction false} SpanCount(a: nat, b: nat)
    requires a <= b + 1
    ensures |Span(a, b)| == b + 1 - a
    decreases b + 1 - a
  {
    if a <= b {
      SpanCount(a + 1, b);
      assert Span(a, b) == {a} + Span(a + 1, b);
    } else {
      assert Span(a, b) == {};
    }
  }

  /** `*` sets every bit of the field's range, `end - start + 1` bits:
    * 60 minutes, 24 hours, 31 days, 12 months and 7 weekdays. */
  lemma WildcardSetsWholeRange(range: FieldRange)
    requires range.start <= range.end
    ensures PartBits(STAR_ONLY, range).Ok?
    ensures forall x :: x in PartBits(STAR_ONLY, range).value <==> range.start <= x <= range.end
    ensures |PartBits(STAR_ONLY, range).value| == range.end + 1 - range.start
  {
    SpanCount(range.start, range.end);
  }

  /** The step loop from `v` sets exactly the values `v + k*step` up to `end`. */
  lemma {:induction false} StepBitsExact(v: nat, end: nat, step: nat, x: nat)
    requires step > 0
    ensures x in StepBits(v, end, step) <==> v <= x <= end && (x - v) % step == 0
    decreases if v <= end then end + 1 - v else 0
  {
    if v <= end {
      StepBitsExact(v + step, end, step, x);
      if x >= v + step {
        assert (x - v) % step == (x - (v + step)) % step by {
          ModMinusDivisor(x - v, step);
        }
      } else if v < x {
        assert (x - v) % step == x - v;
      }
    }
  }

  lemma ModMinusDivisor(y: int, d: int)
    requires d > 0 && y >= d
    ensures y % d == (y - d) % d
  {
    var q := (y - d) / d;
    var r := (y - d) % d;
    assert y - d == d * q + r;
    assert d * (q + 1) == d * q + d;
    ModUnique(y, d, q + 1, r);
  }

  /** The remainder is the unique `r` with `y == d*q + r` and `0 <= r < d`. */
  lemma ModUnique(y: int, d: int, q: int, r: int)
    requires d > 0 && y == d * q + r && 0 <= r < d
    ensures y % d == r
  {
    var q', r' := y / d, y % d;
    assert y == d * q' + r';
    assert d * (q - q') == r' - r;
    MulBounds(d, q - q');
  }

  /** A nonzero multiple of `d` is at least `d` away from zero. */
  lemma {:induction false} MulBounds(d: int, k: int)
    requires d > 0
    ensures k >= 1 ==> d * k >= d
    ensures k <= -1 ==> d * k <= -d
    decreases if k >= 0 then k else -k
  {
    if k > 1 {
      MulBounds(d, k - 1);
      assert d * k == d * (k - 1) + d;
    } else if k < -1 {
      MulBounds(d, k + 1);
      assert d * k == d * (k + 1) - d;
    }
  }

  // A step part `*` `/` s: an unparseable or zero step is "Invalid step";
  // otherwise the bits are exactly `start + k*s` within the range.
  lemma StepPart(part: Bytes, range: FieldRange)
    requires |part| >= 2 && part[..2] == STEP_PREFIX
    ensures ParseU8(part[2..]).None? ==> PartBits(part, range) == Err(InvalidStep(part))
    ensures ParseU8(part[2..]) == Some(0) ==> PartBits(part, range) == Err(InvalidStep(part))
    ensures ParseU8(part[2..]).Some? && ParseU8(part[2..]).value > 0 ==>
      var s := ParseU8(part[2..]).value;
      && PartBits(part, range).Ok?
      && forall x: nat :: x in PartBits(part, range).value <==>
           range.start <= x <= range.end && (x - range.start) % s == 0
  {
    assert part != STAR_ONLY;
    if ParseU8(part[2..]).Some? && ParseU8(part[2..]).value > 0 {
      var s := ParseU8(part[2..]).value;
      forall x: nat ensures x in StepBits(range.start, range.end, s) <==>
          range.start <= x <= range.end && (x - range.start) % s == 0 {
        StepBitsExact(range.start, range.end, s, x);
      }
    }
  }

  /** `a-b`: succeeds exactly when the part splits on `-` into two `u8`s
    * with `start <= a <= b <= end`, and then sets exactly `a..=b`; every
    * other case is "Invalid range". */
  lemma RangePart(part: Bytes, range: FieldRange)
    requires part != STAR_ONLY && !(|part| >= 2 && part[..2] == STEP_PREFIX) && DASH in part
    ensures var pieces := Split(part, DASH);
      PartBits(part, range).Ok? <==>
        && |pieces| == 2
        && ParseU8(pieces[0]).Some? && ParseU8(pieces[1]).Some?
        && range.start <= ParseU8(pieces[0]).value <= ParseU8(pieces[1]).value <= range.end
    ensures PartBits(part, range).Ok? ==>
      var pieces := Split(part, DASH);
      forall x: nat :: x in PartBits(part, range).value <==>
        ParseU8(pieces[0]).value <= x <= ParseU8(pieces[1]).value
    ensures PartBits(part, range).Err? ==> PartBits(part, range).error == InvalidRange(part)
  {
  }

  /** A bare value sets exactly its own bit when it is in range; otherwise
    * it is "Invalid value". */
  lemma ValuePart(part: Bytes, range: FieldRange)
    requires part != STAR_ONLY && !(|part| >= 2 && part[..2] == STEP_PREFIX) && DASH !in part
    ensures PartBits(part, range).Ok? <==>
      ParseU8(part).Some? && range.start <= ParseU8(part).value <= range.end
    ensures PartBits(part, range).Ok? ==> PartBits(part, range).value == {ParseU8(part).value}
    ensures PartBits(part, range).Err? ==> PartBits(part, range).error == InvalidValue(part)
  {
  }

  /** Bit `x` is set by one of the parts. */
  predicate InSomePart(x: nat, parts: seq<Bytes>, range: FieldRange) {
    exists i :: 0 <= i < |parts| && PartBits(parts[i], range).Ok? && x in PartBits(parts[i], range).value
  }

  /** A field compiles exactly when each of its parts does. */
  lemma {:induction false} FieldOkIffEveryPart(parts: seq<Bytes>, range: FieldRange)
    ensures PartsBits(parts, range).Ok? <==> forall i :: 0 <= i < |parts| ==> PartBits(parts[i], range).Ok?
    decreases |parts|
  {
    if parts != [] {
      var init := parts[..|parts| - 1];
      FieldOkIffEveryPart(init, range);
      assert forall i :: 0 <= i < |init| ==> init[i] == parts[i];
    }
  }

  /** A compiled field sets a bit exactly when one of its parts does. */
  lemma {:induction false} FieldBitIffSomePart(parts: seq<Bytes>, range: FieldRange, x: nat)
    requires PartsBits(parts, range).Ok?
    ensures x in PartsBits(parts, range).value <==> InSomePart(x, parts, range)
    decreases |parts|
  {
    if parts != [] {
      var init := parts[..|parts| - 1];
      var last := parts[|parts| - 1];
      FieldBitIffSomePart(init, range, x);
      assert PartsBits(parts, range).value == PartsBits(init, range).value + PartBits(last, range).value;
      if InSomePart(x, init, range) {
        var i :| 0 <= i < |init| && PartBits(init[i], range).Ok? && x in PartBits(init[i], range).value;
        assert parts[i] == init[i];
      }
      if x in PartBits(last, range).value {
        assert parts[|parts| - 1] == last;
      }
      if InSomePart(x, parts, range) {
        var i :| 0 <= i < |parts| && PartBits(parts[i], range).Ok? && x in PartBits(parts[i], range).value;
        if i < |init| {
          assert init[i] == parts[i];
        }
      }
    }
  }

  /** A field is the bitwise union of its comma parts: it succeeds exactly
    * when every part does, and then a bit is set exactly when some part
    * sets it. */
  lemma FieldIsUnionOfParts(parts: seq<Bytes>, range: FieldRange)
    ensures PartsBits(parts, range).Ok? <==> forall i :: 0 <= i < |parts| ==> PartBits(parts[i], range).Ok?
    ensures PartsBits(parts, range).Ok? ==>
      forall x: nat :: x in PartsBits(parts, range).value <==> InSomePart(x, parts, range)
  {
    FieldOkIffEveryPart(parts, range);
    if PartsBits(parts, range).Ok? {
      forall x: nat ensures x in PartsBits(parts, range).value <==> InSomePart(x, parts, range) {
        FieldBitIffSomePart(parts, range, x);
      }
    }
  }

  /** Order and repetition of the parts do not matter: two part lists with
    * the same members compile alike. */
  lemma FieldOrderIrrelevant(ps: seq<Bytes>, qs: seq<Bytes>, range: FieldRange)
    requires forall p :: p in ps <==> p in qs
    ensures PartsBits(ps, range).Ok? <==> PartsBits(qs, range).Ok?
    ensures PartsBits(ps, range).Ok? ==> PartsBits(ps, range).value == PartsBits(qs, range).value
  {
    FieldIsUnionOfParts(ps, range);
    FieldIsUnionOfParts(qs, range);
    if PartsBits(ps, range).Ok? {
      forall j | 0 <= j < |qs| ensures PartBits(qs[j], range).Ok? {
        assert qs[j] in ps;
      }
    }
    if PartsBits(qs, range).Ok? {
      forall j | 0 <= j < |ps| ensures PartBits(ps[j], range).Ok? {
        assert ps[j] in qs;
      }
    }
    if PartsBits(ps, range).Ok? && PartsBits(qs, range).Ok? {
      forall x: nat ensures x in PartsBits(ps, range).value <==> x in PartsBits(qs, range).value {
        if InSomePart(x, ps, range) {
          var i :| 0 <= i < |ps| && PartBits(ps[i], range).Ok? && x in PartBits(ps[i], range).value;
          assert ps[i] in qs;
        }
        if InSomePart(x, qs, range) {
          var i :| 0 <= i < |qs| && PartBits(qs[i], range).Ok? && x in PartBits(qs[i], range).value;
          assert qs[i] in ps;
        }
      }
    }
  }

  predicate InRange(mask: Mask, range: FieldRange) {
    forall b :: b in mask ==> range.start <= b <= range.end
  }

  /** Every field has at least one bit, and all its bits lie in its range. */
  predicate WellFormed(s: CronSchedule) {
    && s.minute != {} && InRange(s.minute, MINUTES)
    && s.hour != {} && InRange(s.hour, HOURS)
    && s.day != {} && InRange(s.day, DAYS)
    && s.month != {} && InRange(s.month, MONTHS)
    && s.weekday != {} && InRange(s.weekday, WEEKDAYS)
  }

  /** A part that compiles sets at least one bit, all inside the range. */
  lemma PartInRange(part: Bytes, range: FieldRange)
    requires range.start <= range.end
    requires PartBits(part, range).Ok?
    ensures PartBits(part, range).value != {} && InRange(PartBits(part, range).value, range)
  {
    var m := PartBits(part, range).value;
    if part == STAR_ONLY {
      assert range.start in m;
    } else if |part| >= 2 && part[..2] == STEP_PREFIX {
      var s := ParseU8(part[2..]).value;
      StepBitsExact(range.start, range.end, s, range.start);
      forall b | b in m ensures range.start <= b <= range.end {
        StepBitsExact(range.start, range.end, s, b);
      }
    } else if DASH in part {
      var pieces := Split(part, DASH);
      assert ParseU8(pieces[0]).value in m;
    }
  }

  /** A field that compiles has at least one bit set, all inside its range. */
  lemma FieldInRange(text: Bytes, range: FieldRange)
    requires range.start <= range.end
    requires FieldBits(text, range).Ok?
    ensures FieldBits(text, range).value != {} && InRange(FieldBits(text, range).value, range)
  {
    var parts := Split(text, COMMA);
    FieldIsUnionOfParts(parts, range);
    var m := FieldBits(text, range).value;
    PartInRange(parts[0], range);
    var b :| b in PartBits(parts[0], range).value;
    assert b in m;
    forall x | x in m ensures range.start <= x <= range.end {
      var i :| 0 <= i < |parts| && PartBits(parts[i], range).Ok? && x in PartBits(parts[i], range).value;
      PartInRange(parts[i], range);
    }
  }

  /** On success every field has at least one bit, all inside its range, so
    * each mask also fits its Rust integer width. */
  lemma CompiledBitsInRange(expr: Bytes)
    requires Compile(expr).Ok?
    ensures WellFormed(Compile(expr).value)
  {
    var fields := Words(Trimmed(expr));
    FieldInRange(fields[0], MINUTES);
    FieldInRange(fields[1], HOURS);
    FieldInRange(fields[2], DAYS);
    FieldInRange(fields[3], MONTHS);
    FieldInRange(fields[4], WEEKDAYS);
  }

  /** A part's error always names that part and is never a field-count error. */
  lemma {:induction false} FieldErrorNamesPart(parts: seq<Bytes>, range: FieldRange)
    requires PartsBits(parts, range).Err?
    ensures !PartsBits(parts, range).error.ExpectedFiveFields?
    decreases |parts|
  {
    if PartsBits(parts[..|parts| - 1], range).Err? {
      FieldErrorNamesPart(parts[..|parts| - 1], range);
    }
  }

  /** "Expected 5 fields" is reported exactly when the trimmed expression
    * does not have five whitespace-separated fields. */
  lemma FieldCountError(expr: Bytes)
    ensures (Compile(expr).Err? && Compile(expr).error.ExpectedFiveFields?)
        <==> |Words(Trimmed(expr))| != 5
    ensures |Words(Trimmed(expr))| != 5 ==>
        Compile(expr) == Err(ExpectedFiveFields(|Words(Trimmed(expr))|))
  {
    var fields := Words(Trimmed(expr));
    if |fields| == 5 && CompileFields(fields).Err? {
      FirstFailingField(fields);
      if !FieldOk(fields, 0) {
        FieldErrorNamesPart(Split(fields[0], COMMA), MINUTES);
      } else if !FieldOk(fields, 1) {
        FieldErrorNamesPart(Split(fields[1], COMMA), HOURS);
      } else if !FieldOk(fields, 2) {
        FieldErrorNamesPart(Split(fields[2], COMMA), DAYS);
      } else if !FieldOk(fields, 3) {
        FieldErrorNamesPart(Split(fields[3], COMMA), MONTHS);
      } else {
        FieldErrorNamesPart(Split(fields[4], COMMA), WEEKDAYS);
      }
    }
  }

  /** Field `i` of five compiles against its range. */
  predicate FieldOk(fields: seq<Bytes>, i: nat)
    requires |fields| == 5 && i < 5
  {
    FieldBits(fields[i], FIELD_RANGES[i]).Ok?
  }

  /** Five fields compile exactly when every one does, and otherwise fail
    * with the error of the first failing field in the order minute, hour,
    * day, month, weekday. */
  lemma FirstFailingField(f: seq<Bytes>)
    requires |f| == 5
    ensures CompileFields(f).Ok? <==>
      FieldOk(f, 0) && FieldOk(f, 1) && FieldOk(f, 2) && FieldOk(f, 3) && FieldOk(f, 4)
    ensures !FieldOk(f, 0) ==> CompileFields(f) == Err(FieldBits(f[0], MINUTES).error)
    ensures FieldOk(f, 0) && !FieldOk(f, 1) ==> CompileFields(f) == Err(FieldBits(f[1], HOURS).error)
    ensures FieldOk(f, 0) && FieldOk(f, 1) && !FieldOk(f, 2) ==>
      CompileFields(f) == Err(FieldBits(f[2], DAYS).error)
    ensures FieldOk(f, 0) && FieldOk(f, 1) && FieldOk(f, 2) && !FieldOk(f, 3) ==>
      CompileFields(f) == Err(FieldBits(f[3], MONTHS).error)
    ensures FieldOk(f, 0) && FieldOk(f, 1) && FieldOk(f, 2) && FieldOk(f, 3) && !FieldOk(f, 4) ==>
      CompileFields(f) == Err(FieldBits(f[4], WEEKDAYS).error)
  {
  }

  /** `u8::from_str` takes a leading `+`: the value `+7` is 7. */
  lemma PlusSignAccepted()
    ensures ParseU8([PLUS, ZERO + 7]) == Some(7)
    ensures PartBits([PLUS, ZERO + 7], MINUTES) == Ok({7})
  {
    var d: Bytes := [ZERO + 7];
    assert [PLUS, ZERO + 7][1..] == d;
    assert DigitsValue(d) == 7 by { assert d[..0] == []; }
  }

  // The step part "*" "/" "15" on minutes sets exactly {0, 15, 30, 45}.
  lemma QuarterHourStep()
    ensures PartBits(Ascii("*/15"), MINUTES) == Ok({0, 15, 30, 45})
  {
    var part := Ascii("*/15");
    assert part == [42, 47, 49, 53];
    assert part[..2] == STEP_PREFIX;
    assert part[2..] == [49, 53];
    assert DigitsValue([49, 53]) == 15 by {
      assert [49, 53][..1] == [49];
      assert [49][..0] == [];
    }
    assert ParseU8([49, 53]) == Some(15);
    StepPart(part, MINUTES);
    var m := PartBits(part, MINUTES).value;
    forall x: nat ensures x in m <==> x in {0, 15, 30, 45} {
      if x <= 59 && x % 15 == 0 {
        assert x == 0 || x == 15 || x == 30 || x == 45;
      }
    }
    assert m == {0, 15, 30, 45};
  }

  // ---------------------------------------------------------------------
  // Findings: the step loop as written

  /** `let mut v = start; while v <= end { set_bit(&mut mask, v); v += step; }`
    * with `v` and `step` of type `u8`: in a release build `v += step` wraps
    * modulo 256 (a debug build panics instead). `fuel` bounds the number
    * of iterations; `None` means the loop had not finished. */
  function StepLoopAsWritten(mask: Mask, v: nat, end: nat, step: nat, fuel: nat): Option<Mask>
    requires v < 256 && step < 256
    decreases fuel
  {
    if v > end then Some(mask)
    else if fuel == 0 then None
    else StepLoopAsWritten(SetBit(mask, v), (v + step) % 256, end, step, fuel - 1)
  }

  // A zero step: the loop as written never finishes, however long it runs.
  lemma {:induction false} ZeroStepNeverFinishes(mask: Mask, start: nat, end: nat, fuel: nat)
    requires start <= end && start < 256
    ensures StepLoopAsWritten(mask, start, end, 0, fuel) == None
    decreases fuel
  {
    if fuel > 0 {
      ZeroStepNeverFinishes(SetBit(mask, start), start, end, fuel - 1);
    }
  }

  // A step of 255 on the day field: `1 + 255` wraps to 0, so the loop as
  // written sets bit 0, outside the day range 1..31.
  lemma Step255WrapsOnDays()
    ensures StepLoopAsWritten({}, DAYS.start, DAYS.end, 255, 2) == Some({0, 1})
    ensures !InRange({0, 1}, DAYS)
  {
    assert SetBit({}, 1) == {1};
    assert SetBit({1}, 0) == {1, 0};
    assert StepLoopAsWritten({}, 1, 31, 255, 2) == StepLoopAsWritten({1}, 0, 31, 255, 1);
    assert StepLoopAsWritten({1}, 0, 31, 255, 1) == StepLoopAsWritten({1, 0}, 255, 31, 255, 0);
    assert StepLoopAsWritten({1, 0}, 255, 31, 255, 0) == Some({1, 0});
    assert {1, 0} == {0, 1};
  }

  // The corrected step: a zero step is an invalid step, and a step of 255
  // on days sets only day 1.
  lemma CorrectedStepEdgeCases()
    ensures PartBits(Ascii("*/0"), DAYS) == Err(InvalidStep(Ascii("*/0")))
    ensures PartBits(Ascii("*/255"), DAYS) == Ok({1})
  {
    var zero := Ascii("*/0");
    assert zero[2..] == [48];
    assert DigitsValue([48]) == 0;
    assert ParseU8(zero[2..]) == Some(0);
    var big := Ascii("*/255");
    assert big[2..] == [50, 53, 53];
    assert [50, 53, 53][..2] == [50, 53];
    assert [50, 53][..1] == [50];
    assert DigitsValue([50, 53, 53]) == 255;
    assert ParseU8(big[2..]) == Some(255);
    assert StepBits(1, 31, 255) == {1};
  }
}
