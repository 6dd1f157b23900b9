// Decoded JSON values, as the Howdy, anex and scraper dictionaries hold them,
// together with the few Python built-ins the converters apply to them:
// `dict.get`, truthiness, `str(...)`, `int(...)` and `float(...)`.
module Json {
  import opened Common

  datatype Json =
    | JNull
    | JBool(b: bool)
    | JInt(i: int)
    | JFloat(f: real)
    | JStr(s: string)
    | JList(items: seq<Json>)
    | JObj(fields: map<string, Json>)

  type Dict = map<string, Json>

  /** `d.get(k)`: a missing key reads as None. */
  function Get(d: Dict, k: string): Json { if k in d then d[k] else JNull }

  /** `d.get(k, default)`. */
  function GetOr(d: Dict, k: string, default: Json): Json { if k in d then d[k] else default }

  /** Python truthiness. */
  predicate Truthy(v: Json) {
    match v
    case JNull => false
    case JBool(b) => b
    case JInt(i) => i != 0
    case JFloat(f) => f != 0.0
    case JStr(s) => s != []
    case JList(xs) => xs != []
    case JObj(m) => m != map[]
  }

  /** `v == "Y"` (a string compared with any other value is simply unequal). */
  predicate IsStr(v: Json, s: string) { v == JStr(s) }

  /** A value that is a string, or None otherwise (an Optional[str] field). */
  function AsOptStr(v: Json): Option<string> {
    match v
    case JStr(s) => Some(s)
    case _ => None
  }

  /**
   * `str(v)`. Ints, bools, None and strings print as Python prints them;
   * floats, lists and dicts print as a placeholder (their repr is not part of
   * this model).
   */
  function Str(v: Json): string {
    match v
    case JNull => "None"
    case JBool(b) => if b then "True" else "False"
    case JInt(i) => IntToString(i)
    case JFloat(_) => "<float>"
    case JStr(s) => s
    case JList(_) => "[...]"
    case JObj(_) => "{...}"
  }

  /** The Python exceptions the converters raise or catch. */
  datatype PyError = ValueError | TypeError | AttributeError | KeyError | IndexError | ValidationError

  /** A value, or the exception raised while computing it. */
  datatype Outcome<T> = Ok(value: T) | Fail(err: PyError) {
    predicate IsFailure() { Fail? }
    function PropagateFailure<U>(): Outcome<U> requires Fail? { Fail(err) }
    function Extract(): T requires Ok? { value }
  }

  /** The values of the outcomes that succeeded, in order; the failures are skipped. */
  function Successes<T>(outs: seq<Outcome<T>>): (r: seq<T>)
    ensures |r| <= |outs|
    ensures forall i :: 0 <= i < |outs| && outs[i].Ok? ==> outs[i].value in r
  {
    if |outs| == 0 then []
    else
      var init, last := outs[..|outs| - 1], outs[|outs| - 1];
      var r := Successes(init);
      assert forall i :: 0 <= i < |init| ==> init[i] == outs[i];
      r + (if last.Ok? then [last.value] else [])
  }

  /** Every element of a non-empty list converts exactly when the first does and every later one does. */
  lemma AllOkCons<T, U>(xs: seq<T>, f: T -> Outcome<U>)
    requires |xs| > 0
    ensures (forall i :: 0 <= i < |xs| ==> f(xs[i]).Ok?) <==>
      f(xs[0]).Ok? && forall i :: 0 <= i < |xs[1..]| ==> f(xs[1..][i]).Ok?
  {
    assert forall i :: 0 <= i < |xs[1..]| ==> xs[1..][i] == xs[i + 1];
  }

  /** Collecting the successes of a concatenation collects each part. */
  lemma {:induction false} SuccessesAppend<T>(xs: seq<Outcome<T>>, ys: seq<Outcome<T>>)
    ensures Successes(xs + ys) == Successes(xs) + Successes(ys)
    decreases |ys|
  {
    if |ys| == 0 {
      assert xs + ys == xs;
    } else {
      var zs := ys[..|ys| - 1];
      assert (xs + ys)[..|xs + ys| - 1] == xs + zs;
      SuccessesAppend(xs, zs);
    }
  }

  /** Collecting the successes of a list given by its first outcome and the rest. */
  lemma SuccessesCons<T>(x: Outcome<T>, xs: seq<Outcome<T>>)
    ensures Successes([x] + xs) == (if x.Ok? then [x.value] else []) + Successes(xs)
  {
    SuccessesAppend([x], xs);
    assert [x][..0] == [];
  }

  /** A pydantic `str` field: only a string validates. */
  function ReqStr(v: Json): (r: Outcome<string>)
    ensures r.Ok? <==> v.JStr?
    ensures r.Ok? ==> r.value == v.s
  {
    if v.JStr? then Ok(v.s) else Fail(ValidationError)
  }

  /** A pydantic `Optional[str]` field: None or a string validates. */
  function OptStr(v: Json): (r: Outcome<Option<string>>)
    ensures r.Ok? <==> (v.JNull? || v.JStr?)
    ensures r.Ok? ==> (r.value.Some? <==> v.JStr?) && (v.JStr? ==> r.value.value == v.s)
  {
    match v
    case JNull => Ok(None)
    case JStr(s) => Ok(Some(s))
    case _ => Fail(ValidationError)
  }

  datatype IntResult = IntOk(value: int) | IntErr(err: PyError)

  /** ASCII digits with single underscores between them ("1_000"), as `int()` groups them. */
  predicate IsDigitGroups(s: string) {
    |s| > 0 && IsDigit(s[0]) && forall i :: 0 <= i < |s| ==> GroupedAt(s, i)
  }

  /** A digit, or an underscore with a digit right after it. */
  predicate GroupedAt(s: string, i: nat)
    requires i < |s|
  {
    IsDigit(s[i]) || (s[i] == '_' && i + 1 < |s| && IsDigit(s[i + 1]))
  }

  /** The digits of a grouped numeral, the underscores taken out. */
  function DropUnderscores(s: string): (r: string)
    ensures (forall i :: 0 <= i < |s| ==> IsDigit(s[i]) || s[i] == '_') ==> AllDigits(r)
    ensures AllDigits(s) ==> r == s
  {
    if |s| == 0 then []
    else
      var init, last := s[..|s| - 1], s[|s| - 1];
      assert forall i :: 0 <= i < |init| ==> init[i] == s[i];
      var r := DropUnderscores(init);
      assert s == init + [last];
      if last == '_' then r else r + [last]
  }

  /** Optional sign then grouped ASCII digits (what `int()` accepts after stripping). */
  predicate IsIntLiteral(s: string) {
    |s| > 0 &&
    (if s[0] == '+' || s[0] == '-' then IsDigitGroups(s[1..]) else IsDigitGroups(s))
  }

  /** The value of a grouped numeral. */
  function GroupsValue(s: string): nat
    requires IsDigitGroups(s)
  {
    assert forall i :: 0 <= i < |s| ==> GroupedAt(s, i) && (IsDigit(s[i]) || s[i] == '_');
    DigitsValue(DropUnderscores(s))
  }

  function IntLiteralValue(s: string): int
    requires IsIntLiteral(s)
  {
    if s[0] == '-' then 0 - (GroupsValue(s[1..]) as int)
    else if s[0] == '+' then GroupsValue(s[1..])
    else GroupsValue(s)
  }

  /** A plain run of digits is an integer literal with its digits' value. */
  lemma DigitsLiteral(s: string)
    requires s != [] && AllDigits(s)
    ensures IsIntLiteral(s) && IntLiteralValue(s) == DigitsValue(s)
  {
  }

  /** "1_000" reads as 1000. */
  lemma UnderscoreGrouped()
    ensures IsIntLiteral("1_000") && IntLiteralValue("1_000") == 1000
  {
    UnderscoresDropped();
    ThousandValue();
  }

  lemma UnderscoresDropped()
    ensures DropUnderscores("1_000") == "1000"
  {
    UnderscoreDroppedEarly();
    DropLast("1_0", '0');
    assert "1_0" + ['0'] == "1_00" && "10" + ['0'] == "100";
    DropLast("1_00", '0');
    assert "1_00" + ['0'] == "1_000" && "100" + ['0'] == "1000";
  }

  /** The first three characters of "1_000" lose their underscore. */
  lemma UnderscoreDroppedEarly()
    ensures DropUnderscores("1_0") == "10"
  {
    assert DropUnderscores("1") == "1";
    DropLast("1", '_');
    assert "1" + ['_'] == "1_";
    DropLast("1_", '0');
    assert "1_" + ['0'] == "1_0" && "1" + ['0'] == "10";
  }

  /** Appending a character to a literal drops it if it is an underscore and keeps it otherwise. */
  lemma DropLast(s: string, c: char)
    ensures DropUnderscores(s + [c]) == if c == '_' then DropUnderscores(s) else DropUnderscores(s) + [c]
  {
    assert (s + [c])[..|s|] == s;
  }

  lemma ThousandValue()
    ensures DigitsValue("1000") == 1000
  {
    assert DigitsValue("10") == 10 by { assert "10"[..1] == "1"; }
    assert DigitsValue("100") == 100 by { assert "100"[..2] == "10"; }
    assert "1000"[..3] == "100";
  }

  /** A doubled, leading or trailing underscore is refused. */
  lemma UnderscoreMisplaced()
    ensures !IsIntLiteral("1__000") && !IsIntLiteral("_1") && !IsIntLiteral("1_") && !IsIntLiteral("-_1")
  {
    assert !GroupedAt("1__000", 1);
    assert !GroupedAt("1_", 1);
    assert "-_1"[1..] == "_1";
  }

  /**
   * `int(v)`: ints pass, bools become 0/1, floats are truncated toward zero,
   * strings are parsed, anything else is a TypeError.
   */
  function ToInt(v: Json): (r: IntResult)
    ensures v.JInt? ==> r == IntOk(v.i)
    ensures v.JStr? ==> (r.IntOk? <==> IsIntLiteral(Strip(v.s)))
    ensures (v.JNull? || v.JList? || v.JObj?) ==> r == IntErr(TypeError)
  {
    match v
    case JInt(i) => IntOk(i)
    case JBool(b) => IntOk(if b then 1 else 0)
    case JFloat(f) => IntOk(if f >= 0.0 then f.Floor else 0 - (0.0 - f).Floor)
    case JStr(s) =>
      var t := Strip(s);
      if IsIntLiteral(t) then IntOk(IntLiteralValue(t)) else IntErr(ValueError)
    case _ => IntErr(TypeError)
  }

  /**
   * `float(v)`: numbers and bools convert, strings must be a plain decimal
   * numeral once stripped, anything else is a TypeError.
   */
  function ToFloat(v: Json): (r: Outcome<real>)
    ensures v.JInt? ==> r == Ok(v.i as real)
    ensures v.JFloat? ==> r == Ok(v.f)
    ensures v.JStr? ==> (r.Ok? <==> IsDecimal(Strip(v.s)))
    ensures (v.JNull? || v.JList? || v.JObj?) ==> r == Fail(TypeError)
  {
    match v
    case JInt(i) => Ok(i as real)
    case JFloat(f) => Ok(f)
    case JBool(b) => Ok(if b then 1.0 else 0.0)
    case JStr(s) =>
      var t := Strip(s);
      if IsDecimal(t) then Ok(DecimalValue(t)) else Fail(ValueError)
    case _ => Fail(TypeError)
  }

  /** Digits, then optionally a '.' and more digits (`\d+(?:\.\d+)?`). */
  predicate IsDecimal(s: string) {
    exists k :: 0 < k <= |s| && AllDigits(s[..k]) &&
      (k == |s| || (s[k] == '.' && k + 1 < |s| && AllDigits(s[k + 1..])))
  }

  /** The value of a decimal numeral with an optional fractional part. */
  function DecimalValue(s: string): real
    requires |s| > 0
  {
    var k := DotIndex(s);
    var intPart := s[..k];
    var frac := if k < |s| then s[k + 1..] else [];
    if AllDigits(intPart) && AllDigits(frac) then
      (DigitsValue(intPart) as real) + (DigitsValue(frac) as real) / Pow10(|frac|)
    else 0.0
  }

  function DotIndex(s: string): (k: nat)
    ensures k <= |s| && (k < |s| ==> s[k] == '.')
    ensures forall i :: 0 <= i < k ==> s[i] != '.'
  {
    if |s| == 0 then 0 else if s[0] == '.' then 0 else 1 + DotIndex(s[1..])
  }

  function Pow10(n: nat): (r: real)
    ensures r >= 1.0
  {
    if n == 0 then 1.0 else 10.0 * Pow10(n - 1)
  }
}
