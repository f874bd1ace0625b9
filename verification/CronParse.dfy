/** Parsing schedule expressions: cron fields and `@every` intervals. */
module CronParse {
  import opened Wrappers
  import opened Cron

  const U32_MAX: int := 0xFFFF_FFFF
  const I64_MAX: int := 0x7FFF_FFFF_FFFF_FFFF

  // ----- string helpers -----

  function IndexOf(s: string, c: char): (i: nat)
    ensures i <= |s|
    ensures i < |s| ==> s[i] == c
    ensures forall j :: 0 <= j < i ==> s[j] != c
  {
    if s == [] || s[0] == c then 0 else 1 + IndexOf(s[1..], c)
  }

  function SplitOnce(s: string, c: char): Option<(string, string)>
  {
    var i := IndexOf(s, c);
    if i < |s| then Some((s[..i], s[i + 1..])) else None
  }

  /** str::split: always at least one piece. */
  function Split(s: string, c: char): (parts: seq<string>)
    ensures |parts| > 0
    decreases |s|
  {
    match SplitOnce(s, c)
    case None => [s]
    case Some((head, tail)) => [head] + Split(tail, c)
  }

  predicate IsDigit(c: char)
  {
    '0' <= c <= '9'
  }

  predicate AllDigits(s: string)
  {
    forall i :: 0 <= i < |s| ==> IsDigit(s[i])
  }

  function Decimal(s: string): nat
    requires AllDigits(s)
  {
    if s == [] then 0 else Decimal(s[..|s| - 1]) * 10 + (s[|s| - 1] - '0') as int
  }

  /** u32::from_str: an optional plus sign, at least one digit, no overflow. */
  function ParseU32(s: string): (r: Option<int>)
    ensures r.Some? ==> 0 <= r.value <= U32_MAX
  {
    var digits := if |s| > 0 && s[0] == '+' then s[1..] else s;
    if digits != [] && AllDigits(digits) && Decimal(digits) <= U32_MAX then Some(Decimal(digits)) else None
  }

  // ----- one comma-separated part of a field -----

  datatype Part = Part(start: int, end: int, step: int)

  function ParseRange(s: string, lo: int, hi: int): Option<(int, int)>
  {
    if s == "*" then Some((lo, hi))
    else match SplitOnce(s, '-')
      case Some((a, b)) =>
        if ParseU32(a).Some? && ParseU32(b).Some? then Some((ParseU32(a).value, ParseU32(b).value)) else None
      case None =>
        if ParseU32(s).Some? then Some((ParseU32(s).value, ParseU32(s).value)) else None
  }

  /** `range`, or `range/step` with a positive step; the range must lie in [lo, hi] and not be inverted. */
  function ParsePart(s: string, lo: int, hi: int): (r: Option<Part>)
    requires 0 <= lo <= hi
    ensures r.Some? ==> lo <= r.value.start <= r.value.end <= hi && 1 <= r.value.step <= U32_MAX
  {
    var (range, step) := match SplitOnce(s, '/') case None => (s, Some(1)) case Some((a, b)) => (a, ParseU32(b));
    if step.None? || step.value == 0 then None
    else match ParseRange(range, lo, hi)
      case None => None
      case Some((start, end)) =>
        if start < lo || end > hi || start > end then None else Some(Part(start, end, step.value))
  }

  // ----- the text of a part -----

  /** The text is a number: digits, with or without a plus sign before them, that fit 32 bits. */
  ghost predicate NumberReads(s: string, v: int)
  {
    exists digits: string ::
      && (s == digits || s == "+" + digits)
      && digits != [] && AllDigits(digits) && v == Decimal(digits) <= 4294967295
  }

  /** The text is a range: a star for all of it, one number for itself, or two with a dash between. */
  ghost predicate RangeReads(s: string, lo: int, hi: int, start: int, end: int)
  {
    || (s == "*" && start == lo && end == hi)
    || (NumberReads(s, start) && end == start)
    || exists a: string, b: string :: s == a + "-" + b && NumberReads(a, start) && NumberReads(b, end)
  }

  /** The text is a part: a range inside the field's bounds, and after a slash its step, a positive number. */
  ghost predicate PartReads(s: string, lo: int, hi: int, p: Part)
  {
    && lo <= p.start <= p.end <= hi && p.step >= 1
    && (|| (RangeReads(s, lo, hi, p.start, p.end) && p.step == 1)
        || exists range: string, n: string ::
             s == range + "/" + n && RangeReads(range, lo, hi, p.start, p.end) && NumberReads(n, p.step))
  }

  lemma IndexIs(s: string, c: char, a: string, b: string)
    requires s == a + [c] + b && c !in a
    ensures IndexOf(s, c) == |a|
  {
    assert s[|a|] == c;
    assert forall j :: 0 <= j < |a| ==> s[j] == a[j] && a[j] in a;
  }

  lemma SplitOnceIs(s: string, c: char)
    ensures SplitOnce(s, c).None? <==> c !in s
    ensures SplitOnce(s, c).Some? ==> var (a, b) := SplitOnce(s, c).value; s == a + [c] + b && c !in a
    ensures forall a: string, b: string :: s == a + [c] + b && c !in a ==> SplitOnce(s, c) == Some((a, b))
  {
    forall a: string, b: string | s == a + [c] + b && c !in a
      ensures SplitOnce(s, c) == Some((a, b))
    {
      IndexIs(s, c, a, b);
      assert s[..|a|] == a && s[|a| + 1..] == b;
    }
  }

  lemma NumberIff(s: string, v: int)
    ensures ParseU32(s) == Some(v) <==> NumberReads(s, v)
    ensures NumberReads(s, v) ==> '-' !in s && '/' !in s && s != "*"
  {
    if ParseU32(s) == Some(v) {
      var digits := if |s| > 0 && s[0] == '+' then s[1..] else s;
      assert s == digits || s == "+" + digits;
    }
    if digits: string :|
      && (s == digits || s == "+" + digits)
      && digits != [] && AllDigits(digits) && v == Decimal(digits) <= 4294967295
    {
      assert IsDigit(digits[0]);
      assert s == "+" + digits ==> s[1..] == digits;
      assert forall i :: 0 <= i < |s| ==> s[i] == '+' || s[i] in digits;
    }
  }

  /** Two numbers with a dash between are found at the first dash. */
  lemma DashIs(s: string, start: int, end: int, a: string, b: string)
    requires s == a + "-" + b && NumberReads(a, start) && NumberReads(b, end)
    ensures s != "*" && SplitOnce(s, '-') == Some((a, b)) && '/' !in s
    ensures ParseU32(a) == Some(start) && ParseU32(b) == Some(end)
  {
    NumberIff(a, start);
    NumberIff(b, end);
    SplitOnceIs(s, '-');
    assert s[|a|] == '-';
  }

  lemma RangeIff(s: string, lo: int, hi: int, start: int, end: int)
    ensures ParseRange(s, lo, hi) == Some((start, end)) <==> RangeReads(s, lo, hi, start, end)
    ensures RangeReads(s, lo, hi, start, end) ==> '/' !in s
  {
    NumberIff(s, start);
    forall a: string, b: string | s == a + "-" + b && NumberReads(a, start) && NumberReads(b, end)
      ensures ParseRange(s, lo, hi) == Some((start, end)) && '/' !in s
    {
      DashIs(s, start, end, a, b);
    }
    if s != "*" && ParseRange(s, lo, hi) == Some((start, end)) {
      RangeIsRead(s, lo, hi, start, end);
    }
  }

  lemma RangeIsRead(s: string, lo: int, hi: int, start: int, end: int)
    requires s != "*" && ParseRange(s, lo, hi) == Some((start, end))
    ensures RangeReads(s, lo, hi, start, end)
  {
    SplitOnceIs(s, '-');
    match SplitOnce(s, '-')
    case None => NumberIff(s, start);
    case Some((a, b)) =>
      NumberIff(a, start);
      NumberIff(b, end);
      assert s == a + "-" + b;
  }

  /** A part with a step, before and after the slash. */
  lemma SteppedIff(s: string, lo: int, hi: int, p: Part, range: string, n: string)
    requires 0 <= lo <= hi && SplitOnce(s, '/') == Some((range, n))
    ensures ParsePart(s, lo, hi) == Some(p) <==>
      && lo <= p.start <= p.end <= hi && p.step >= 1
      && RangeReads(range, lo, hi, p.start, p.end) && NumberReads(n, p.step)
  {
    RangeIff(range, lo, hi, p.start, p.end);
    NumberIff(n, p.step);
  }

  lemma WholeIff(s: string, lo: int, hi: int, p: Part)
    requires 0 <= lo <= hi && SplitOnce(s, '/') == None
    ensures ParsePart(s, lo, hi) == Some(p) <==>
      lo <= p.start <= p.end <= hi && p.step == 1 && RangeReads(s, lo, hi, p.start, p.end)
  {
    RangeIff(s, lo, hi, p.start, p.end);
  }

  /** Which texts are parts, and of what: the parser accepts exactly those, and reads them so. */
  lemma ParsePartIff(s: string, lo: int, hi: int, p: Part)
    requires 0 <= lo <= hi
    ensures ParsePart(s, lo, hi) == Some(p) <==> PartReads(s, lo, hi, p)
  {
    SplitOnceIs(s, '/');
    RangeIff(s, lo, hi, p.start, p.end);
    forall range: string, n: string | s == range + "/" + n && RangeReads(range, lo, hi, p.start, p.end)
      ensures SplitOnce(s, '/') == Some((range, n))
    {
      RangeIff(range, lo, hi, p.start, p.end);
    }
    match SplitOnce(s, '/')
    case None => WholeIff(s, lo, hi, p);
    case Some((range, n)) =>
      SteppedIff(s, lo, hi, p, range, n);
      assert s == range + "/" + n;
  }

  /** The fields and parts of an expression: joined by the separator they give the text back, and none contains it. */
  function Joined(parts: seq<string>, c: char): string
    requires parts != []
  {
    if |parts| == 1 then parts[0] else parts[0] + [c] + Joined(parts[1..], c)
  }

  lemma {:induction false} SplitIs(s: string, c: char)
    ensures Joined(Split(s, c), c) == s
    ensures forall i :: 0 <= i < |Split(s, c)| ==> c !in Split(s, c)[i]
    decreases |s|
  {
    SplitOnceIs(s, c);
    if SplitOnce(s, c).None? {
    } else {
      var (head, tail) := SplitOnce(s, c).value;
      SplitIs(tail, c);
      assert Split(s, c)[1..] == Split(tail, c);
    }
  }

  /** The digits are the ten ASCII ones. */
  lemma DigitsAre(s: string)
    ensures AllDigits(s) <==> forall c :: c in s ==> c in "0123456789"
  {
    forall c: char
      ensures IsDigit(c) <==> c in "0123456789"
    {
      var i := c as int - 48;
      assert 0 <= i < 10 ==> "0123456789"[i] == c;
      assert IsDigit(c) <==> 0 <= i < 10;
    }
    if AllDigits(s) {
    } else {
      var i :| 0 <= i < |s| && !IsDigit(s[i]);
      assert s[i] in s;
    }
  }

  /** Digits are read in base ten, most significant first. */
  lemma {:induction false} DecimalOf(a: string, b: string)
    requires AllDigits(a) && AllDigits(b)
    ensures AllDigits(a + b) && Decimal(a + b) == Decimal(a) * TenTo(|b|) + Decimal(b)
    decreases |b|
  {
    if b == [] {
      assert a + b == a;
    } else {
      var front, last := b[..|b| - 1], b[|b| - 1];
      DecimalOf(a, front);
      LastDigit(b, front, last);
      assert a + b == a + front + [last];
      LastDigit(a + b, a + front, last);
      Shifted(Decimal(a), TenTo(|front|), Decimal(front), last as int - 48);
    }
  }

  lemma Shifted(x: int, p: int, y: int, d: int)
    ensures (x * p + y) * 10 + d == x * (10 * p) + (y * 10 + d)
  {
  }

  lemma LastDigit(s: string, front: string, last: char)
    requires s == front + [last] && AllDigits(s)
    ensures AllDigits(front) && Decimal(s) == Decimal(front) * 10 + (last as int - 48)
    ensures front == [] ==> Decimal(s) == last as int - 48
  {
    assert s[..|s| - 1] == front;
    assert forall i :: 0 <= i < |front| ==> front[i] == s[i];
  }

  function TenTo(n: nat): nat
  {
    if n == 0 then 1 else 10 * TenTo(n - 1)
  }

  /** The values a part stands for: start, start + step, ... up to end. */
  ghost predicate Denotes(p: Part, v: int)
  {
    v <= p.end && exists k: nat :: v == p.start + k * p.step
  }

  /** A valid field stands for the values of all its parts. */
  ghost predicate FieldDenotes(parts: seq<string>, lo: int, hi: int, v: int)
    requires 0 <= lo <= hi
  {
    exists i :: 0 <= i < |parts| && ParsePart(parts[i], lo, hi).Some? && Denotes(ParsePart(parts[i], lo, hi).value, v)
  }

  ghost predicate AllParse(parts: seq<string>, lo: int, hi: int)
    requires 0 <= lo <= hi
  {
    forall i :: 0 <= i < |parts| ==> ParsePart(parts[i], lo, hi).Some?
  }

  function SaturatingAdd(a: int, b: int): int
  {
    if a + b > U32_MAX then U32_MAX else a + b
  }

  lemma StepsAreOrdered(step: int, j: int, k: int)
    requires step >= 1
    ensures j < k ==> j * step + step <= k * step
    ensures j * step < k * step ==> j < k
  {
    if j < k {
      Times(k - j - 1, step);
      assert k * step == (k - j - 1) * step + j * step + step;
    } else {
      Times(j - k, step);
      assert j * step == (j - k) * step + k * step;
    }
  }

  lemma Times(a: nat, b: nat)
    ensures 0 <= a * b
  {
  }

  /** Add the values of one part to `seen`, stepping from its start with saturating u32 addition. */
  method AddPart(p: Part, seen: set<int>) returns (out: set<int>)
    requires 0 <= p.start <= p.end < U32_MAX && 1 <= p.step
    ensures forall v :: v in out <==> v in seen || Denotes(p, v)
  {
    out := seen;
    var v := p.start;
    ghost var k: nat := 0;
    while v <= p.end
      invariant v == p.start + k * p.step || (v == U32_MAX && p.end < p.start + k * p.step)
      invariant forall w :: w in out <==> w in seen || exists j: nat :: j < k && w == p.start + j * p.step
      invariant k > 0 ==> p.start + (k - 1) * p.step <= p.end
      decreases U32_MAX - v
    {
      ghost var before := out;
      out := out + {v};
      assert (k + 1) * p.step == k * p.step + p.step;
      v := SaturatingAdd(v, p.step);
      forall w
        ensures w in out <==> w in seen || exists j: nat :: j < k + 1 && w == p.start + j * p.step
      {
        if w == p.start + k * p.step {
          assert k < k + 1 && w == p.start + k * p.step;
        }
      }
      k := k + 1;
    }
    forall w
      ensures w in out <==> w in seen || Denotes(p, w)
    {
      DenotesIff(p, k, w);
    }
  }

  lemma DenotesIff(p: Part, k: nat, w: int)
    requires p.step >= 1 && p.end < p.start + k * p.step && (k > 0 ==> p.start + (k - 1) * p.step <= p.end)
    ensures Denotes(p, w) <==> exists j: nat :: j < k && w == p.start + j * p.step
  {
    if Denotes(p, w) {
      var j: nat :| w == p.start + j * p.step;
      StepsAreOrdered(p.step, j, k);
      assert j < k && w == p.start + j * p.step;
    }
    if j: nat :| j < k && w == p.start + j * p.step {
      StepsAreOrdered(p.step, j, k - 1);
    }
  }

  /** The field's text stands for exactly these values, all in range and at least one. */
  ghost predicate ParsesTo(field: string, lo: int, hi: int, values: set<int>)
    requires 0 <= lo <= hi
  {
    FieldOk(values, lo, hi) && Covers(values, Split(field, ','), lo, hi)
  }

  /** A field parses exactly when every part does, to exactly the values its parts stand for. */
  method ParseField(field: string, lo: int, hi: int) returns (r: Result<set<int>>)
    requires 0 <= lo <= hi < U32_MAX
    ensures r.Ok? <==> AllParse(Split(field, ','), lo, hi)
    ensures r.Ok? ==> ParsesTo(field, lo, hi, r.value)
  {
    var parts := Split(field, ',');
    var out: set<int> := {};
    for i := 0 to |parts|
      invariant FieldRead(out, parts[..i], lo, hi)
    {
      assert parts[..i + 1] == parts[..i] + [parts[i]];
      var added := AddText(parts[i], out, lo, hi, parts[..i]);
      if added.Err? {
        return Err;
      }
      out := added.value;
    }
    assert parts[..|parts|] == parts;
    return Ok(out);
  }

  /** Every part so far parses, and `values` are theirs. */
  ghost predicate FieldRead(values: set<int>, parts: seq<string>, lo: int, hi: int)
    requires 0 <= lo <= hi
  {
    AllParse(parts, lo, hi) && Covers(values, parts, lo, hi) && (parts != [] ==> FieldOk(values, lo, hi))
  }

  /** One turn of the loop over a field's parts. */
  method AddText(text: string, seen: set<int>, lo: int, hi: int, ghost parts: seq<string>) returns (r: Result<set<int>>)
    requires 0 <= lo <= hi < U32_MAX && FieldRead(seen, parts, lo, hi)
    ensures r.Ok? <==> ParsePart(text, lo, hi).Some?
    ensures r.Ok? ==> FieldRead(r.value, parts + [text], lo, hi)
  {
    var part := ParsePart(text, lo, hi);
    if part.None? {
      return Err;
    }
    var out := AddPart(part.value, seen);
    FieldStep(seen, out, parts, text, lo, hi);
    return Ok(out);
  }

  ghost predicate Covers(values: set<int>, parts: seq<string>, lo: int, hi: int)
    requires 0 <= lo <= hi
  {
    forall v :: v in values <==> FieldDenotes(parts, lo, hi, v)
  }

  lemma FieldStep(before: set<int>, after: set<int>, parts: seq<string>, part: string, lo: int, hi: int)
    requires 0 <= lo <= hi && ParsePart(part, lo, hi).Some?
    requires AllParse(parts, lo, hi) && Covers(before, parts, lo, hi) && (parts != [] ==> FieldOk(before, lo, hi))
    requires forall v :: v in after <==> v in before || Denotes(ParsePart(part, lo, hi).value, v)
    ensures AllParse(parts + [part], lo, hi) && Covers(after, parts + [part], lo, hi) && FieldOk(after, lo, hi)
  {
    var p := ParsePart(part, lo, hi).value;
    FieldGrows(parts, part, lo, hi);
    StartDenoted(p);
    DenotedInRange(p);
    assert p.start in after;
  }

  lemma FieldGrows(parts: seq<string>, part: string, lo: int, hi: int)
    requires 0 <= lo <= hi && ParsePart(part, lo, hi).Some?
    ensures forall v :: FieldDenotes(parts + [part], lo, hi, v)
                        <==> FieldDenotes(parts, lo, hi, v) || Denotes(ParsePart(part, lo, hi).value, v)
  {
    forall v
      ensures FieldDenotes(parts + [part], lo, hi, v)
              <==> FieldDenotes(parts, lo, hi, v) || Denotes(ParsePart(part, lo, hi).value, v)
    {
      if FieldDenotes(parts, lo, hi, v) {
        var i :| 0 <= i < |parts| && ParsePart(parts[i], lo, hi).Some? && Denotes(ParsePart(parts[i], lo, hi).value, v);
        assert (parts + [part])[i] == parts[i];
      }
      if Denotes(ParsePart(part, lo, hi).value, v) {
        assert (parts + [part])[|parts|] == part;
      }
    }
  }

  lemma StartDenoted(p: Part)
    requires p.start <= p.end
    ensures Denotes(p, p.start)
  {
    assert p.start == p.start + 0 * p.step;
  }

  lemma DenotedInRange(p: Part)
    requires p.step >= 1
    ensures forall v :: Denotes(p, v) ==> p.start <= v <= p.end
  {
  }

  // ----- whole expressions -----

  datatype ScheduleExpr = Every(interval: int) | CronExpr(schedule: CronSchedule)

  /** The five fields every cron expression has, after `seconds`. */
  method ParseFive(seconds: set<int>, fields: seq<string>) returns (r: Result<CronSchedule>)
    requires |fields| == 5 && FieldOk(seconds, 0, 59)
    ensures r.Ok? <==> FiveParse(fields)
    ensures r.Ok? ==> WellFormed(r.value) && r.value.seconds == seconds && FiveDenote(r.value, fields)
  {
    var minutes := ParseField(fields[0], 0, 59);
    var hours := ParseField(fields[1], 0, 23);
    var days := ParseField(fields[2], 1, 31);
    var months := ParseField(fields[3], 1, 12);
    var dows := ParseField(fields[4], 0, 6);
    if minutes.Err? || hours.Err? || days.Err? || months.Err? || dows.Err? {
      return Err;
    }
    return Ok(CronSchedule(seconds, minutes.value, hours.value, days.value, months.value, dows.value));
  }

  /** The whitespace-separated fields of a cron expression: five, or six with a leading seconds field. */
  method ParseCron(fields: seq<string>) returns (r: Result<CronSchedule>)
    ensures r.Ok? <==>
      || (|fields| == 5 && FiveParse(fields))
      || (|fields| == 6 && AllParse(Split(fields[0], ','), 0, 59) && FiveParse(fields[1..]))
    ensures r.Ok? ==> WellFormed(r.value)
    ensures r.Ok? && |fields| == 5 ==> r.value.seconds == {0} && FiveDenote(r.value, fields)
    ensures r.Ok? && |fields| == 6 ==> ParsesTo(fields[0], 0, 59, r.value.seconds) && FiveDenote(r.value, fields[1..])
  {
    if |fields| == 5 {
      r := ParseFive({0}, fields);
    } else if |fields| == 6 {
      var seconds := ParseField(fields[0], 0, 59);
      if seconds.Err? {
        return Err;
      }
      r := ParseFive(seconds.value, fields[1..]);
    } else {
      return Err;
    }
  }

  ghost predicate FiveParse(fields: seq<string>)
    requires |fields| == 5
  {
    && AllParse(Split(fields[0], ','), 0, 59) && AllParse(Split(fields[1], ','), 0, 23)
    && AllParse(Split(fields[2], ','), 1, 31) && AllParse(Split(fields[3], ','), 1, 12)
    && AllParse(Split(fields[4], ','), 0, 6)
  }

  ghost predicate FiveDenote(c: CronSchedule, fields: seq<string>)
    requires |fields| == 5
  {
    && ParsesTo(fields[0], 0, 59, c.minutes) && ParsesTo(fields[1], 0, 23, c.hours)
    && ParsesTo(fields[2], 1, 31, c.days) && ParsesTo(fields[3], 1, 12, c.months)
    && ParsesTo(fields[4], 0, 6, c.dows)
  }

  function DigitsPrefix(s: string): (n: nat)
    ensures n <= |s| && AllDigits(s[..n]) && (n < |s| ==> !IsDigit(s[n]))
  {
    if s == [] || !IsDigit(s[0]) then 0
    else
      var n := DigitsPrefix(s[1..]);
      assert s[..n + 1] == [s[0]] + s[1..][..n];
      n + 1
  }

  function UnitSeconds(unit: string): Option<int>
  {
    if unit == "s" then Some(1)
    else if unit == "m" then Some(60)
    else if unit == "h" then Some(3600)
    else if unit == "d" then Some(86400)
    else None
  }

  /** The part of `@every <n><unit>` after the keyword: a positive count, a known unit, no i64 overflow. */
  function ParseEvery(body: string): (r: Option<int>)
    ensures r.Some? ==> 1 <= r.value <= I64_MAX
  {
    var n := DigitsPrefix(body);
    if n == 0 || n == |body| then None
    else
      var count, unit := Decimal(body[..n]), UnitSeconds(body[n..]);
      if count > I64_MAX || count == 0 || unit.None? || count * unit.value > I64_MAX then None
      else Some(count * unit.value)
  }

  /** Which interval expressions there are: digits then a unit, in exactly one way. */
  lemma EveryIff(body: string, interval: int)
    ensures ParseEvery(body) == Some(interval) <==>
      exists digits: string, unit: string :: EveryReads(body, digits, unit, interval)
  {
    if ParseEvery(body) == Some(interval) {
      var n := DigitsPrefix(body);
      assert body == body[..n] + body[n..];
      assert EveryReads(body, body[..n], body[n..], interval);
    }
    forall digits: string, unit: string | EveryReads(body, digits, unit, interval)
      ensures ParseEvery(body) == Some(interval)
    {
      PrefixIs(body, digits, unit);
      assert body[..|digits|] == digits && body[|digits|..] == unit;
    }
  }

  ghost predicate EveryReads(body: string, digits: string, unit: string, interval: int)
  {
    && body == digits + unit && digits != [] && AllDigits(digits)
    && Decimal(digits) >= 1
    && (|| (unit == "s" && interval == Decimal(digits))
        || (unit == "m" && interval == 60 * Decimal(digits))
        || (unit == "h" && interval == 60 * 60 * Decimal(digits))
        || (unit == "d" && interval == 24 * 60 * 60 * Decimal(digits)))
    && interval <= 9223372036854775807
  }

  lemma {:induction false} PrefixIs(body: string, digits: string, unit: string)
    requires body == digits + unit && AllDigits(digits) && unit != [] && !IsDigit(unit[0])
    ensures DigitsPrefix(body) == |digits|
    decreases |digits|
  {
    if digits == [] {
    } else {
      assert body[1..] == digits[1..] + unit;
      PrefixIs(body[1..], digits[1..], unit);
    }
  }
}
