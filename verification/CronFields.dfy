/** One field of a calendar specification, in systemd's and in cron's notation. */
module CronFields {
  import opened Common
  import opened Text
  import opened Decimal

  // --- Python's int() ---

  /** Digits with single underscores between them. */
  predicate IsGrouped(s: string) {
    s != "" && IsDigit(s[0]) && IsDigit(s[|s| - 1])
    && (forall i | 0 <= i < |s| :: IsDigit(s[i]) || s[i] == '_')
    && (forall i | 0 <= i < |s| - 1 :: s[i] == '_' ==> s[i + 1] != '_')
  }

  function DropUnderscores(s: string): string {
    if s == "" then "" else (if s[0] == '_' then "" else [s[0]]) + DropUnderscores(s[1..])
  }

  lemma {:induction false} DropUnderscoresIs(s: string)
    requires forall i | 0 <= i < |s| :: IsDigit(s[i]) || s[i] == '_'
    ensures forall i | 0 <= i < |DropUnderscores(s)| :: IsDigit(DropUnderscores(s)[i])
    ensures '_' !in s ==> DropUnderscores(s) == s
  {
    if s != "" { DropUnderscoresIs(s[1..]); }
  }

  /** `int(s)` on ASCII text; None is a ValueError. */
  function ParseInt(s: string): Option<int> {
    var t := Strip(s);
    var signed := t != "" && t[0] in {'+', '-'};
    var digits := if signed then t[1..] else t;
    if !IsGrouped(digits) then None
    else
      DropUnderscoresIs(digits);
      var n: int := Value(DropUnderscores(digits));
      Some(if signed && t[0] == '-' then -n else n)
  }

  lemma DigitsAreNotSpace(s: string)
    requires IsNumber(s)
    ensures Strip(s) == s && '_' !in s
  {
    assert IsDigit(s[0]) && IsDigit(s[|s| - 1]);
    assert LStrip(s) == s && RStrip(s) == s;
  }

  lemma ParseIntOfNumber(s: string)
    requires IsNumber(s)
    ensures ParseInt(s) == Some(Value(s))
  {
    DigitsAreNotSpace(s);
    assert IsDigit(s[0]);
    DropUnderscoresIs(s);
    assert forall i | 0 <= i < |s| :: IsDigit(s[i]);
  }

  // --- Conversion ---

  /** `x.split('/', 1)` */
  function SplitOnce(s: string, c: char): (r: seq<string>)
    ensures 1 <= |r| <= 2
  {
    var head := Split(s, c)[0];
    if |head| < |s| then [head, s[|head| + 1..]] else [s]
  }

  /** What one element of a comma list does to its field: nothing, or replace it as a whole. */
  datatype Effect = Keep | Replace(text: string)

  function StepText(first: nat, last: nat, step: nat): string {
    Digits(first) + "-" + Digits(last) + "/" + Digits(step)
  }

  /** The greatest multiple of `step` within `left`. */
  function Span(left: nat, step: nat): (a: nat)
    requires step > 0
    ensures a <= left < a + step
    ensures a == 0 <==> left < step
  {
    assert left == left / step * step + left % step;
    SpanIsZero(left, step);
    left / step * step
  }

  lemma SpanIsZero(left: nat, step: nat)
    requires step > 0
    ensures 0 <= left / step * step
    ensures left / step * step == 0 <==> left < step
  {
    var q := left / step;
    assert left == q * step + left % step;
    if q >= 1 { assert q * step >= step; }
  }

  /** `list(map(int, pieces))` for the one or two pieces of an element. */
  function ParseInts(pieces: seq<string>): Option<seq<int>>
    requires 1 <= |pieces| <= 2
  {
    var first := ParseInt(pieces[0]);
    if first.None? then None
    else if |pieces| == 1 then Some([first.value])
    else
      var second := ParseInt(pieces[1]);
      if second.None? then None else Some([first.value, second.value])
  }

  /** What one element does, as numbers, in a field with `z` values from `y`. */
  function ConvertNumbers(x: seq<int>, y: nat, z: nat): Option<Effect>
    requires |x| > 0
  {
    if !(y <= x[0] < y + z) then None
    else if |x| == 1 then Some(Keep)
    else if x[1] <= 0 then None
    else
      var a := Span(z - (x[0] - y) - 1, x[1]);
      if a == 0 then None else Some(Replace(StepText(x[0], x[0] + a, x[1])))
  }

  /** The body of the loop over elements; None is a ValueError. */
  function ConvertElement(text: string, y: nat, z: nat): Option<Effect> {
    match ParseInts(SplitOnce(text, '/'))
    case None => None
    case Some(x) => ConvertNumbers(x, y, z)
  }

  /** What one element makes of the field. */
  function Apply(before: Option<string>, effect: Option<Effect>): Option<string> {
    match (before, effect)
    case (Some(text), Some(Keep)) => Some(text)
    case (Some(_), Some(Replace(text))) => Some(text)
    case _ => None
  }

  function ConvertElements(elements: seq<string>, field: string, y: nat, z: nat): Option<string> {
    if elements == [] then Some(field)
    else Apply(ConvertElements(elements[..|elements| - 1], field, y, z), ConvertElement(elements[|elements| - 1], y, z))
  }

  function Convert(field: string, y: nat, z: nat): Option<string> {
    if field == "*" then Some(field) else ConvertElements(Split(field, ','), field, y, z)
  }

  lemma ConvertOneMore(elements: seq<string>, i: nat, field: string, y: nat, z: nat)
    requires i < |elements|
    ensures ConvertElements(elements[..i + 1], field, y, z)
         == Apply(ConvertElements(elements[..i], field, y, z), ConvertElement(elements[i], y, z))
  {
    assert elements[..i + 1][..i] == elements[..i];
  }

  /** The loop over elements, assigning to the field as it goes. */
  method ConvertField(field: string, y: nat, z: nat) returns (r: Option<string>)
    ensures r == Convert(field, y, z)
  {
    if field == "*" {
      return Some(field);
    }
    var elements := Split(field, ',');
    var current := field;
    for i := 0 to |elements|
      invariant ConvertElements(elements[..i], field, y, z) == Some(current)
    {
      var effect := ConvertElement(elements[i], y, z);
      ConvertOneMore(elements, i, field, y, z);
      if effect.None? {
        FailureStays(elements, i + 1, field, y, z);
        return None;
      }
      if effect.value.Replace? {
        current := effect.value.text;
      }
    }
    assert elements[..|elements|] == elements;
    r := Some(current);
  }

  lemma {:induction false} FailureStays(elements: seq<string>, n: nat, field: string, y: nat, z: nat)
    requires n <= |elements| && ConvertElements(elements[..n], field, y, z).None?
    ensures ConvertElements(elements, field, y, z).None?
    decreases |elements|
  {
    if n < |elements| {
      var front := elements[..|elements| - 1];
      assert front[..n] == elements[..n];
      FailureStays(front, n, field, y, z);
    } else {
      assert elements[..n] == elements;
    }
  }

  // --- The notation of systemd ---

  /** `first`, or `first/step`, as texts of digits. */
  datatype ElementOf = Element(first: string, step: Option<string>)

  type Element = e: ElementOf | IsNumber(e.first) && (e.step.Some? ==> IsNumber(e.step.value))
    witness Element("0", None)

  datatype FieldOf = Any | List(elements: seq<Element>)

  type Field = f: FieldOf | f.List? ==> f.elements != [] witness Any

  function ElementText(e: Element): string {
    match e.step case None => e.first case Some(step) => e.first + "/" + step
  }

  function ElementTexts(es: seq<Element>): (r: seq<string>)
    ensures |r| == |es| && forall i | 0 <= i < |es| :: r[i] == ElementText(es[i])
  {
    seq(|es|, i requires 0 <= i < |es| => ElementText(es[i]))
  }

  function FieldText(f: Field): string {
    match f case Any => "*" case List(es) => Join(ElementTexts(es), ",")
  }

  /** `n` is reached from `first` in steps. */
  predicate InSteps(first: nat, step: nat, n: nat) {
    first <= n && step > 0 && (n - first) % step == 0
  }

  /** A value alone, or every so many values from the first on to the end of the field. */
  predicate ElementHas(e: Element, y: nat, z: nat, n: nat)
  {
    match e.step
    case None => n == Value(e.first)
    case Some(step) =>
      n < y + z && InSteps(Value(e.first), Value(step), n)
  }

  predicate FieldHas(f: Field, y: nat, z: nat, n: nat)
  {
    y <= n < y + z && (f.Any? || exists i :: 0 <= i < |f.elements| && ElementHas(f.elements[i], y, z, n))
  }

  // --- The notation of cron ---

  predicate AllNumbers(s: seq<string>) { forall i | 0 <= i < |s| :: IsNumber(s[i]) }

  /** A value, or a range with perhaps a step. */
  predicate CronRangeHas(range: seq<string>, steps: seq<string>, n: nat) {
    && AllNumbers(range) && AllNumbers(steps)
    && (if |range| == 1 && |steps| == 0 then n == Value(range[0])
        else
          && |range| == 2 && |steps| <= 1
          && var step := if |steps| == 1 then Value(steps[0]) else 1;
             n <= Value(range[1]) && InSteps(Value(range[0]), step, n))
  }

  /** `a`, `a-b` or `a-b/s`. */
  predicate CronItemHas(item: string, n: nat) {
    var parts := Split(item, '/');
    CronRangeHas(Split(parts[0], '-'), parts[1..], n)
  }

  predicate CronFieldHas(field: string, n: nat) {
    field == "*" || exists i :: 0 <= i < |Split(field, ',')| && CronItemHas(Split(field, ',')[i], n)
  }

  // --- What conversion does ---

  lemma NumberHasOnlyDigits(s: string, c: char)
    requires IsNumber(s) && !IsDigit(c)
    ensures c !in s && Split(s, c) == [s]
  {
    assert forall i | 0 <= i < |s| :: IsDigit(s[i]);
    SplitAtFirst(s, "", c);
  }

  /** An element that is accepted: in the field, and with at least two values if it has a step. */
  predicate IsAccepted(e: Element, y: nat, z: nat)
  {
    y <= Value(e.first) < y + z
    && (e.step.Some? ==> Value(e.step.value) > 0 && Value(e.first) + Value(e.step.value) < y + z)
  }

  /** The range that replaces a field, for a stepped element that is accepted. */
  function RangeOf(e: Element, y: nat, z: nat): string {
    if e.step.Some? && IsAccepted(e, y, z) then
      var first, step := Value(e.first), Value(e.step.value);
      StepText(first, first + Span(y + z - first - 1, step), step)
    else ""
  }

  lemma ElementSplits(e: Element)
    ensures SplitOnce(ElementText(e), '/') == match e.step case None => [e.first] case Some(step) => [e.first, step]
  {
    NumberHasOnlyDigits(e.first, '/');
    if e.step.Some? {
      var step := e.step.value;
      assert ElementText(e) == e.first + ['/'] + step;
      SplitAtFirst(e.first, step, '/');
      assert ElementText(e)[|e.first| + 1..] == step;
    }
  }

  /** The numbers of an element. */
  function Numbers(e: Element): (x: seq<int>)
    ensures |x| > 0
  {
    match e.step case None => [Value(e.first)] case Some(step) => [Value(e.first), Value(step)]
  }

  lemma ElementParses(e: Element)
    ensures ParseInts(SplitOnce(ElementText(e), '/')) == Some(Numbers(e))
  {
    ElementSplits(e);
    ParseIntOfNumber(e.first);
    if e.step.Some? { ParseIntOfNumber(e.step.value); }
  }

  lemma NumbersConvert(e: Element, y: nat, z: nat)
    ensures ConvertNumbers(Numbers(e), y, z)
         == if !IsAccepted(e, y, z) then None
            else if e.step.None? then Some(Keep)
            else Some(Replace(RangeOf(e, y, z)))
  {
  }

  lemma ElementConverts(e: Element, y: nat, z: nat)
    ensures ConvertElement(ElementText(e), y, z) == ConvertNumbers(Numbers(e), y, z)
  {
    ElementParses(e);
  }

  lemma MultiplesWithin(left: nat, step: nat, m: nat)
    requires step > 0 && m % step == 0
    ensures m <= Span(left, step) <==> m <= left
  {
    var a := Span(left, step);
    var d := m / step - left / step;
    assert m == m / step * step + m % step;
    assert m - a == d * step;
    if d >= 1 { assert d * step >= step; } else { assert d * step <= 0; }
  }

  /** The range has exactly the values of the stepped element. */
  lemma RangeMeans(e: Element, y: nat, z: nat, n: nat)
    requires IsAccepted(e, y, z) && e.step.Some?
    ensures CronFieldHas(RangeOf(e, y, z), n) <==> ElementHas(e, y, z, n)
  {
    var first, step := Value(e.first), Value(e.step.value);
    var left := y + z - first - 1;
    var last := first + Span(left, step);
    StepTextMeans(first, last, step, n);
    StepsWithin(first, left, step, n);
  }

  lemma StepsWithin(first: nat, left: nat, step: nat, n: nat)
    requires step > 0
    ensures n <= first + Span(left, step) && InSteps(first, step, n) <==> n <= first + left && InSteps(first, step, n)
  {
    if first <= n && (n - first) % step == 0 { MultiplesWithin(left, step, n - first); }
  }

  lemma OneItem(text: string, n: nat)
    requires ',' !in text && text != "*"
    ensures CronFieldHas(text, n) <==> CronItemHas(text, n)
  {
    SplitAtFirst(text, "", ',');
    assert Split(text, ',')[0] == text;
  }

  lemma RangeTextSplits(a: string, b: string, c: string)
    requires IsNumber(a) && IsNumber(b) && IsNumber(c)
    ensures Split(a + "-" + b + "/" + c, '/') == [a + "-" + b, c]
    ensures Split(a + "-" + b, '-') == [a, b]
  {
    NumberHasOnlyDigits(a, '-');
    NumberHasOnlyDigits(b, '-');
    NumberHasOnlyDigits(a, '/');
    NumberHasOnlyDigits(b, '/');
    NumberHasOnlyDigits(c, '/');
    assert a + "-" + b == a + ['-'] + b && a + "-" + b + "/" + c == (a + "-" + b) + ['/'] + c;
    SplitAtFirst(a, b, '-');
    SplitAtFirst(a + "-" + b, c, '/');
  }

  lemma RangeTextMeans(a: string, b: string, c: string, n: nat)
    requires IsNumber(a) && IsNumber(b) && IsNumber(c)
    ensures CronItemHas(a + "-" + b + "/" + c, n)
       <==> n <= Value(b) && InSteps(Value(a), Value(c), n)
  {
    RangeTextSplits(a, b, c);
    assert [a + "-" + b, c][1..] == [c];
    RangeListMeans(a, b, c, n);
  }

  lemma RangeListMeans(a: string, b: string, c: string, n: nat)
    requires IsNumber(a) && IsNumber(b) && IsNumber(c)
    ensures CronRangeHas([a, b], [c], n)
       <==> n <= Value(b) && InSteps(Value(a), Value(c), n)
  {
  }

  lemma StepTextIsItem(first: nat, last: nat, step: nat)
    ensures ',' !in StepText(first, last, step) && StepText(first, last, step) != "*"
  {
    ValueOfDigits(first);
    ValueOfDigits(last);
    ValueOfDigits(step);
    NumberHasOnlyDigits(Digits(first), ',');
    NumberHasOnlyDigits(Digits(last), ',');
    NumberHasOnlyDigits(Digits(step), ',');
    assert IsDigit(Digits(first)[0]);
  }

  lemma StepTextMeans(first: nat, last: nat, step: nat, n: nat)
    ensures CronFieldHas(StepText(first, last, step), n)
       <==> n <= last && InSteps(first, step, n)
  {
    ValueOfDigits(first);
    ValueOfDigits(last);
    ValueOfDigits(step);
    RangeTextMeans(Digits(first), Digits(last), Digits(step), n);
    StepTextIsItem(first, last, step);
    OneItem(StepText(first, last, step), n);
  }

  predicate AllAccepted(es: seq<Element>, y: nat, z: nat)
  {
    forall i | 0 <= i < |es| :: IsAccepted(es[i], y, z)
  }

  lemma AllAcceptedLast(es: seq<Element>, y: nat, z: nat)
    requires es != []
    ensures AllAccepted(es, y, z) <==> AllAccepted(es[..|es| - 1], y, z) && IsAccepted(es[|es| - 1], y, z)
  {
    var front := es[..|es| - 1];
    assert forall i | 0 <= i < |front| :: front[i] == es[i];
  }

  /** The last element with a step. */
  function LastStepped(es: seq<Element>): Option<Element> {
    if es == [] then None
    else if es[|es| - 1].step.Some? then Some(es[|es| - 1])
    else LastStepped(es[..|es| - 1])
  }

  lemma {:induction false} LastSteppedIs(es: seq<Element>)
    ensures match LastStepped(es)
      case Some(e) => e in es && e.step.Some?
      case None => forall i | 0 <= i < |es| :: es[i].step.None?
  {
    if es != [] { LastSteppedIs(es[..|es| - 1]); }
  }

  lemma ElementApplied(e: Element, before: Option<string>, y: nat, z: nat)
    ensures Apply(before, ConvertElement(ElementText(e), y, z))
         == if before.None? || !IsAccepted(e, y, z) then None
            else if e.step.Some? then Some(RangeOf(e, y, z)) else before
  {
    ElementConverts(e, y, z);
    NumbersConvert(e, y, z);
  }

  lemma TextsOneMore(es: seq<Element>, field: string, y: nat, z: nat)
    requires es != []
    ensures ConvertElements(ElementTexts(es), field, y, z)
         == Apply(ConvertElements(ElementTexts(es[..|es| - 1]), field, y, z),
             ConvertElement(ElementText(es[|es| - 1]), y, z))
  {
    assert ElementTexts(es)[..|es| - 1] == ElementTexts(es[..|es| - 1]);
  }

  /** What the loop makes of the elements. */
  function ElementsResult(es: seq<Element>, field: string, y: nat, z: nat): Option<string> {
    if !AllAccepted(es, y, z) then None
    else match LastStepped(es)
      case None => Some(field)
      case Some(last) => Some(RangeOf(last, y, z))
  }

  lemma {:induction false} ElementsConvert(es: seq<Element>, field: string, y: nat, z: nat)
    ensures ConvertElements(ElementTexts(es), field, y, z) == ElementsResult(es, field, y, z)
    decreases |es|
  {
    if es != [] {
      var front, last := es[..|es| - 1], es[|es| - 1];
      ElementsConvert(front, field, y, z);
      TextsOneMore(es, field, y, z);
      ElementApplied(last, ElementsResult(front, field, y, z), y, z);
      AllAcceptedLast(es, y, z);
    }
  }

  lemma ElementTextHasNoComma(e: Element)
    ensures ',' !in ElementText(e) && ElementText(e) != "" && IsDigit(ElementText(e)[0])
  {
    NumberHasOnlyDigits(e.first, ',');
    assert IsDigit(e.first[0]);
    if e.step.Some? { NumberHasOnlyDigits(e.step.value, ','); }
  }

  lemma FieldTextSplits(es: seq<Element>)
    requires es != []
    ensures Split(FieldText(List(es)), ',') == ElementTexts(es) && FieldText(List(es)) != "*"
  {
    forall i | 0 <= i < |es| ensures ',' !in ElementTexts(es)[i] { ElementTextHasNoComma(es[i]); }
    SplitJoin(ElementTexts(es), ',');
    ElementTextHasNoComma(es[0]);
    var text := FieldText(List(es));
    assert text[0] == ElementTexts(es)[0][0];
  }

  /** A field is accepted exactly when each element is in the field and has, if it is stepped,
      at least two values. */
  lemma AcceptsExactly(f: Field, y: nat, z: nat)
    ensures Convert(FieldText(f), y, z).Some? <==> f.Any? || AllAccepted(f.elements, y, z)
  {
    if f.List? {
      FieldTextSplits(f.elements);
      ElementsConvert(f.elements, FieldText(f), y, z);
    }
  }

  /** What the converted field has: the values of the field, or of its last stepped element. */
  predicate ConvertedHas(f: Field, y: nat, z: nat, n: nat)
  {
    if f.Any? || LastStepped(f.elements).None? then FieldHas(f, y, z, n)
    else
      LastSteppedIs(f.elements);
      ElementHas(LastStepped(f.elements).value, y, z, n)
  }

  lemma PlainItemMeans(a: string, n: nat)
    requires IsNumber(a)
    ensures CronItemHas(a, n) <==> n == Value(a)
  {
    NumberHasOnlyDigits(a, '/');
    NumberHasOnlyDigits(a, '-');
    assert [a][1..] == [];
  }

  lemma ConvertMeans(f: Field, y: nat, z: nat, n: nat)
    requires Convert(FieldText(f), y, z).Some? && y <= n < y + z
    ensures CronFieldHas(Convert(FieldText(f), y, z).value, n) <==> ConvertedHas(f, y, z, n)
  {
    AcceptsExactly(f, y, z);
    if f.List? {
      var es := f.elements;
      FieldTextSplits(es);
      ElementsConvert(es, FieldText(f), y, z);
      LastSteppedIs(es);
      match LastStepped(es)
      case Some(e) =>
        assert IsAccepted(e, y, z);
        RangeMeans(e, y, z, n);
      case None =>
        forall i | 0 <= i < |es| ensures CronItemHas(ElementTexts(es)[i], n) <==> ElementHas(es[i], y, z, n) {
          PlainItemMeans(es[i].first, n);
        }
    }
  }

  /** A star, a list of plain values, or one stepped value. */
  predicate IsSimple(f: Field) {
    f.Any? || |f.elements| == 1 || forall i | 0 <= i < |f.elements| :: f.elements[i].step.None?
  }

  /** The numbers of an element fit into the steps of the last stepped one: its first value is
      one of them, and its step, if it has one, is a multiple. */
  predicate FitsInto(e: Element, last: Element)
    requires last.step.Some? && Value(last.step.value) > 0
  {
    && InSteps(Value(last.first), Value(last.step.value), Value(e.first))
    && (e.step.Some? ==> Value(e.step.value) % Value(last.step.value) == 0)
  }

  /** Every element fits into the last stepped one, if there is one. */
  predicate LastStepCovers(f: Field) {
    f.Any? || match LastStepped(f.elements)
      case None => true
      case Some(last) =>
        last.step.Some? && Value(last.step.value) > 0
            && forall i | 0 <= i < |f.elements| :: FitsInto(f.elements[i], last)
  }

  lemma ProductBounds(d: int, m: int)
    requires m > 0
    ensures (d >= 1 ==> d * m >= m) && (d <= -1 ==> d * m <= -m)
  {
  }

  lemma RestIs(x: int, m: int, q: int, r: int)
    requires m > 0 && x == q * m + r && 0 <= r < m
    ensures x % m == r
  {
    var d := q - x / m;
    assert x == x / m * m + x % m;
    assert d * m == x % m - r;
    ProductBounds(d, m);
  }

  lemma SumOfMultiples(a: int, b: int, m: int)
    requires m > 0 && a % m == 0
    ensures (a + b) % m == 0 <==> b % m == 0
  {
    var p, q, r := a / m, b / m, b % m;
    assert a == p * m && b == q * m + r;
    assert (p + q) * m == p * m + q * m;
    RestIs(a + b, m, p + q, r);
  }

  lemma MultipleOfMultiple(a: int, s: int, m: int)
    requires m > 0 && s > 0 && a % s == 0 && s % m == 0
    ensures a % m == 0
  {
    var q, p := a / s, s / m;
    assert a == q * s && s == p * m;
    assert q * (p * m) == (q * p) * m;
    RestIs(a, m, q * p, 0);
  }

  lemma FitsExactly(e: Element, last: Element, y: nat, z: nat)
    requires IsAccepted(e, y, z) && IsAccepted(last, y, z) && last.step.Some?
    ensures FitsInto(e, last) <==> forall n | ElementHas(e, y, z, n) :: ElementHas(last, y, z, n)
  {
    var first, step, f := Value(last.first), Value(last.step.value), Value(e.first);
    if FitsInto(e, last) {
      forall n | ElementHas(e, y, z, n) ensures ElementHas(last, y, z, n) {
        if e.step.Some? {
          MultipleOfMultiple(n - f, Value(e.step.value), step);
          SumOfMultiples(f - first, n - f, step);
        }
      }
    }
    if forall n | ElementHas(e, y, z, n) :: ElementHas(last, y, z, n) {
      assert ElementHas(e, y, z, f);
      assert InSteps(first, step, f);
      if e.step.Some? {
        var s := Value(e.step.value);
        assert ElementHas(e, y, z, f + s) by { assert (f + s - f) % s == 0; }
        assert InSteps(first, step, f + s);
        SumOfMultiples(f - first, s, step);
      }
    }
  }

  /** That is a condition on the written numbers; it says that each value of the field is one of
      its last stepped element. */
  lemma CoversExactly(f: Field, y: nat, z: nat)
    requires f.Any? || AllAccepted(f.elements, y, z)
    ensures LastStepCovers(f) <==> forall n | FieldHas(f, y, z, n) :: ConvertedHas(f, y, z, n)
  {
    if f.List? && LastStepped(f.elements).Some? {
      var es, last := f.elements, LastStepped(f.elements).value;
      LastSteppedIs(es);
      assert IsAccepted(last, y, z);
      forall i | 0 <= i < |es|
        ensures FitsInto(es[i], last) <==> forall n | ElementHas(es[i], y, z, n) :: ElementHas(last, y, z, n)
      {
        FitsExactly(es[i], last, y, z);
      }
      EachElementCovered(es, last, y, z);
    }
  }

  lemma EachElementCovered(es: seq<Element>, last: Element, y: nat, z: nat)
    requires es != [] && AllAccepted(es, y, z)
    ensures (forall n | FieldHas(List(es), y, z, n) :: ElementHas(last, y, z, n))
       <==> forall i | 0 <= i < |es| :: forall n | ElementHas(es[i], y, z, n) :: ElementHas(last, y, z, n)
  {
    forall i, n | 0 <= i < |es| && ElementHas(es[i], y, z, n) ensures FieldHas(List(es), y, z, n) {
      assert IsAccepted(es[i], y, z);
    }
  }

  /** Conversion keeps the values of an accepted field exactly when each element fits into the last
      stepped one, if there is one. */
  lemma PreservesExactly(f: Field, y: nat, z: nat)
    requires Convert(FieldText(f), y, z).Some?
    ensures (forall n: nat | y <= n < y + z ::
               CronFieldHas(Convert(FieldText(f), y, z).value, n) <==> FieldHas(f, y, z, n))
       <==> LastStepCovers(f)
    ensures IsSimple(f) ==> LastStepCovers(f)
  {
    AcceptsExactly(f, y, z);
    var out := Convert(FieldText(f), y, z).value;
    forall n: nat | y <= n < y + z ensures CronFieldHas(out, n) <==> ConvertedHas(f, y, z, n) {
      ConvertMeans(f, y, z, n);
    }
    forall n | ConvertedHas(f, y, z, n) ensures FieldHas(f, y, z, n) { ConvertedWithin(f, y, z, n); }
    CoversExactly(f, y, z);
    if f.List? { LastSteppedIs(f.elements); }
  }

  lemma ConvertedWithin(f: Field, y: nat, z: nat, n: nat)
    requires (f.Any? || AllAccepted(f.elements, y, z)) && ConvertedHas(f, y, z, n)
    ensures FieldHas(f, y, z, n)
  {
    if f.List? && LastStepped(f.elements).Some? {
      LastSteppedIs(f.elements);
      var e := LastStepped(f.elements).value;
      var i :| 0 <= i < |f.elements| && f.elements[i] == e;
      assert IsAccepted(e, y, z) && ElementHas(f.elements[i], y, z, n);
    }
  }

  // --- Which texts are numbers ---

  function Sign(sign: string): int { if sign == "-" then -1 else 1 }

  lemma {:induction false} GroupedExactly(s: string)
    ensures IsGrouped(s) <==> AllNumbers(Split(s, '_'))
    decreases |s|
  {
    if '_' in s {
      var head, tail := Groups(s);
      SplitAtFirst(head, tail, '_');
      GroupedExactly(tail);
      GroupedApart(head, tail);
      AllNumbersCons(head, Split(tail, '_'));
    } else {
      SplitAtFirst(s, "", '_');
      assert Split(s, '_')[0] == s;
      if IsGrouped(s) { assert forall i | 0 <= i < |s| :: s[i] in s; }
    }
  }

  lemma AllNumbersCons(head: string, tail: seq<string>)
    ensures AllNumbers([head] + tail) <==> IsNumber(head) && AllNumbers(tail)
  {
    var all := [head] + tail;
    assert all[0] == head && forall i | 0 <= i < |tail| :: all[i + 1] == tail[i];
    if IsNumber(head) && AllNumbers(tail) {
      forall i | 0 <= i < |all| ensures IsNumber(all[i]) {
        if i > 0 { assert all[i] == tail[i - 1]; }
      }
    }
  }

  lemma Groups(s: string) returns (head: string, tail: string)
    requires '_' in s
    ensures '_' !in head && s == head + ['_'] + tail
  {
    var i: nat := 0;
    while s[i] != '_'
      invariant i < |s| && '_' !in s[..i] && '_' in s[i..]
      decreases |s| - i
    {
      assert s[..i + 1] == s[..i] + [s[i]] && s[i..] == [s[i]] + s[i + 1..];
      i := i + 1;
    }
    head, tail := s[..i], s[i + 1..];
  }

  lemma GroupedApart(head: string, tail: string)
    requires '_' !in head
    ensures IsGrouped(head + ['_'] + tail) <==> IsNumber(head) && IsGrouped(tail)
  {
    var s := head + ['_'] + tail;
    assert s[|head|] == '_';
    assert forall i | 0 <= i < |head| :: s[i] == head[i] && head[i] in head;
    assert forall i | 0 <= i < |tail| :: s[|head| + 1 + i] == tail[i];
    if head == "" {
      assert s[0] == '_';
    } else if tail == "" {
      assert s[|s| - 1] == '_';
    } else {
      assert s[0] == head[0] && s[|s| - 1] == tail[|tail| - 1] && s[|head| + 1] == tail[0];
      HeadAndTail(s, head, tail);
    }
  }

  /** Both parts are there. */
  lemma HeadAndTail(s: string, head: string, tail: string)
    requires head != "" && tail != "" && '_' !in head && s == head + ['_'] + tail
    ensures IsGrouped(s) <==> IsNumber(head) && IsGrouped(tail)
  {
    var k := |head|;
    assert s[k] == '_' && (forall i | 0 <= i < k :: s[i] == head[i])
      && forall i | 0 <= i < |tail| :: s[k + 1 + i] == tail[i];
    assert forall i | 0 <= i < k :: head[i] in head;
    if IsGrouped(s) {
      forall i | 0 <= i < |tail| ensures IsDigit(tail[i]) || tail[i] == '_' { assert s[k + 1 + i] == tail[i]; }
      forall i | 0 <= i < |tail| - 1 && tail[i] == '_' ensures tail[i + 1] != '_' { assert s[k + 1 + i] == '_'; }
      forall i | 0 <= i < k ensures IsDigit(head[i]) { assert s[i] != '_'; }
    }
    if IsNumber(head) && IsGrouped(tail) {
      forall i | 0 <= i < |s| ensures IsDigit(s[i]) || s[i] == '_' {
        if i > k { assert s[i] == tail[i - k - 1]; }
      }
      forall i | 0 <= i < |s| - 1 && s[i] == '_' ensures s[i + 1] != '_' {
        if i > k { assert s[i] == tail[i - k - 1] && s[i + 1] == tail[i - k]; }
      }
    }
  }

  lemma {:induction false} DropIsJoin(s: string)
    ensures DropUnderscores(s) == Join(Split(s, '_'), "")
  {
    if s != "" {
      var pieces := Split(s[1..], '_');
      DropIsJoin(s[1..]);
      assert s == [s[0]] + s[1..];
      SplitCons(s[0], s[1..], '_');
      if s[0] == '_' {
        JoinCons("", pieces);
      } else {
        assert InFront(s[0], pieces, '_')[1..] == pieces[1..];
      }
    }
  }

  lemma JoinCons(head: string, pieces: seq<string>)
    requires pieces != []
    ensures Join([head] + pieces, "") == head + Join(pieces, "")
  {
    assert ([head] + pieces)[1..] == pieces;
  }

  /** The part of a number after its sign. */
  predicate IsBody(sign: string, body: string) {
    && sign in {"", "+", "-"} && (body != "" ==> !IsListedSpace(body[|body| - 1]))
    && (sign == "" ==> body == "" || (body[0] !in "+-" && !IsListedSpace(body[0])))
  }

  lemma {:induction false} JoinedIsDigits(pieces: seq<string>)
    requires AllNumbers(pieces)
    ensures forall i | 0 <= i < |Join(pieces, "")| :: IsDigit(Join(pieces, "")[i])
  {
    if |pieces| > 1 {
      assert forall i | 0 <= i < |pieces[1..]| :: pieces[1..][i] == pieces[i + 1];
      JoinedIsDigits(pieces[1..]);
      assert IsNumber(pieces[0]);
    } else if |pieces| == 1 {
      assert IsNumber(pieces[0]);
    }
  }

  /** The number that a sign and groups of digits between single underscores stand for. */
  function IntOf(sign: string, body: string): Option<int> {
    if !AllNumbers(Split(body, '_')) then None
    else
      JoinedIsDigits(Split(body, '_'));
      Some(Sign(sign) * Value(Join(Split(body, '_'), "")))
  }

  lemma IntOfStripped(sign: string, body: string)
    requires IsBody(sign, body)
    ensures Strip(sign + body) == sign + body && ParseInt(sign + body) == IntOf(sign, body)
  {
    var t := sign + body;
    GroupedExactly(body);
    DropIsJoin(body);
    if t != "" {
      SignedEnds(sign, body);
      StripTakesSpaces("", t, "");
      assert "" + t + "" == t;
    }
  }

  lemma SignedEnds(sign: string, body: string)
    requires IsBody(sign, body) && sign + body != ""
    ensures var t := sign + body;
      && !IsSpace(t[0]) && !IsSpace(t[|t| - 1]) && (t[0] in {'+', '-'} <==> sign != "")
      && (sign != "" ==> [t[0]] == sign && t[1..] == body) && (sign == "" ==> t == body)
  {
    var t := sign + body;
    SpaceIs(t[0]);
    SpaceIs(t[|t| - 1]);
    if sign != "" {
      assert t[0] == sign[0] && t[1..] == body && [t[0]] == sign;
      if body != "" { assert t[|t| - 1] == body[|body| - 1]; }
    }
  }

  /** `int` reads white space, a sign, groups of digits between single underscores and white space,
      and rejects every other text: any text is such a sequence, with or without a number. */
  lemma IntExactly(before: string, sign: string, body: string, after: string)
    requires IsBody(sign, body)
    requires forall i | 0 <= i < |before| :: IsListedSpace(before[i])
    requires forall i | 0 <= i < |after| :: IsListedSpace(after[i])
    ensures ParseInt(before + (sign + body) + after) == IntOf(sign, body)
  {
    var t := sign + body;
    IntOfStripped(sign, body);
    if t != "" {
      SignedEnds(sign, body);
      SpaceIs(t[0]);
      SpaceIs(t[|t| - 1]);
    }
    StripExactly(before, t, after);
    SameStripSameInt(before + t + after, t);
  }

  lemma SameStripSameInt(s: string, t: string)
    requires Strip(s) == Strip(t)
    ensures ParseInt(s) == ParseInt(t)
  {
  }
}
