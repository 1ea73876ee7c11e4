/** Shared vocabulary of the ad-slot model: optional values, results, the two
    clocks WordPress code reads, database cell values, and the few PHP string
    and integer conversions the plugin relies on. */
module Common {

  /** A nullable value: `None` is SQL NULL or an unset PHP array key. */
  datatype Option<+T> = None | Some(value: T) {
    function GetOr(default: T): T {
      match this
      case Some(v) => v
      case None => default
    }
  }

  /** The outcome of an operation that can refuse with an error code. */
  datatype Result<+R, +E> = Ok(value: R) | Err(error: E)

  /** The two clocks the plugin reads: `time()` (Unix seconds) and
      `current_time('mysql')` (site-local wall time), both as seconds. */
  datatype Clock = Clock(unix: int, local: int)

  /** A value held in a database column or a PHP array slot. */
  datatype Val = Str(s: string) | Num(n: int)

  /** A PHP value as it comes out of an option or a request array. */
  datatype PVal = PNull | PBool(b: bool) | PInt(i: int) | PStr(str: string) | PList(items: seq<string>)

  /** PHP `(bool)` cast. */
  function ToBool(v: PVal): bool {
    match v
    case PNull => false
    case PBool(b) => b
    case PInt(i) => i != 0
    case PStr(s) => !EmptyStr(s)
    case PList(xs) => xs != []
  }

  /** PHP `intval()`. */
  function ToInt(v: PVal): int {
    match v
    case PNull => 0
    case PBool(b) => if b then 1 else 0
    case PInt(i) => i
    case PStr(s) => IntVal(s)
    case PList(xs) => if xs == [] then 0 else 1
  }

  const DaySeconds: int := 86400
  /** A "month" is always thirty days in the plugin's date arithmetic. */
  const MonthSeconds: int := 30 * 24 * 3600
  const PhpIntMax: int := 0x7FFF_FFFF_FFFF_FFFF

  /** PHP `empty()` on a string: only "" and "0" are empty. */
  predicate EmptyStr(s: string) {
    s == "" || s == "0"
  }

  /** PHP `empty()` on a cell value. */
  predicate EmptyVal(v: Val) {
    match v
    case Str(s) => EmptyStr(s)
    case Num(n) => n == 0
  }

  /** PHP `intval()` on a cell value. */
  function ValInt(v: Val): int {
    match v
    case Num(n) => n
    case Str(s) => IntVal(s)
  }

  /** PHP `absint()` on an integer. */
  function Absint(x: int): (r: nat)
    ensures r == x || r == -x
  {
    if x < 0 then -x else x
  }

  function Max(a: int, b: int): (r: int)
    ensures r >= a && r >= b && (r == a || r == b)
  {
    if a >= b then a else b
  }

  function Min(a: int, b: int): (r: int)
    ensures r <= a && r <= b && (r == a || r == b)
  {
    if a <= b then a else b
  }

  predicate IsDigit(c: char) {
    '0' <= c <= '9'
  }

  predicate AllDigits(s: string) {
    forall i | 0 <= i < |s| :: IsDigit(s[i])
  }

  /** The characters PHP skips before a numeric prefix. */
  predicate IsNumericSpace(c: char) {
    c == ' ' || c == '\t' || c == '\n' || c == '\r' || c == '\U{0B}' || c == '\U{0C}'
  }

  /** The characters PHP's `trim()` strips by default. */
  predicate IsTrimChar(c: char) {
    c == ' ' || c == '\t' || c == '\n' || c == '\r' || c == '\0' || c == '\U{0B}'
  }

  /** The value of a string of decimal digits. */
  function DigitsValue(s: string): (r: nat)
    requires AllDigits(s)
  {
    if s == [] then 0
    else DigitsValue(s[..|s| - 1]) * 10 + ((s[|s| - 1] as int) - ('0' as int))
  }

  /** The length of the run of digits at the start of `s`. */
  function DigitRun(s: string): (n: nat)
    ensures n <= |s| && AllDigits(s[..n])
    ensures n < |s| ==> !IsDigit(s[n])
  {
    if s == [] || !IsDigit(s[0]) then 0
    else
      var k := DigitRun(s[1..]);
      assert s[..k + 1] == [s[0]] + s[1..][..k];
      k + 1
  }

  function SkipNumericSpace(s: string): (r: string)
    ensures |r| <= |s| && r == s[|s| - |r|..]
    ensures r != [] ==> !IsNumericSpace(r[0])
  {
    if s != [] && IsNumericSpace(s[0]) then SkipNumericSpace(s[1..]) else s
  }

  /** PHP `intval()` on a string: leading white space, an optional sign, then
      the longest run of decimal digits; anything else yields 0. */
  function IntVal(s: string): int {
    var t := SkipNumericSpace(s);
    if t != [] && (t[0] == '-' || t[0] == '+') then
      var n := DigitRun(t[1..]);
      var v: int := DigitsValue(t[1..][..n]);
      if t[0] == '-' then -v else v
    else
      DigitsValue(t[..DigitRun(t)])
  }

  /** PHP `trim()` with its default character list. */
  function Trim(s: string): (r: string)
    ensures |r| <= |s|
    ensures r != [] ==> !IsTrimChar(r[0]) && !IsTrimChar(r[|r| - 1])
  {
    TrimRight(TrimLeft(s))
  }

  /** An empty string or "0" has nothing to trim. */
  lemma TrimEmptyStr(s: string)
    requires EmptyStr(s)
    ensures Trim(s) == s
  {
    if s != "" {
      assert |s| == 1 && s[0] == '0';
      TrimKeeps(s);
    }
  }

  /** A string with no trimmable character at either end is its own trim. */
  lemma TrimKeeps(s: string)
    requires s != [] && !IsTrimChar(s[0]) && !IsTrimChar(s[|s| - 1])
    ensures Trim(s) == s
  {
    assert TrimLeft(s) == s;
  }

  /** Five lists joined are empty exactly when each one is. */
  lemma JoinEmpty<T>(a: seq<T>, b: seq<T>, c: seq<T>, d: seq<T>, e: seq<T>)
    ensures a + b + c + d + e == [] <==> a == [] && b == [] && c == [] && d == [] && e == []
  {
    assert |a + b + c + d + e| == |a| + |b| + |c| + |d| + |e|;
  }

  /** Nothing is left to remove once every element is in `ys`. */
  lemma {:induction false} WithoutCovered<T(!new)>(xs: seq<T>, ys: seq<T>)
    requires forall x | x in xs :: x in ys
    ensures Without(xs, ys) == []
    decreases |xs|
  {
    if xs != [] {
      assert xs[0] in xs;
      WithoutCovered(xs[1..], ys);
    }
  }

  function TrimLeft(s: string): (r: string)
    ensures |r| <= |s| && r == s[|s| - |r|..]
    ensures r != [] ==> !IsTrimChar(r[0])
  {
    if s != [] && IsTrimChar(s[0]) then TrimLeft(s[1..]) else s
  }

  function TrimRight(s: string): (r: string)
    ensures |r| <= |s| && r == s[..|r|]
    ensures r != [] ==> !IsTrimChar(r[|r| - 1])
  {
    if s != [] && IsTrimChar(s[|s| - 1]) then TrimRight(s[..|s| - 1]) else s
  }

  function ToUpperChar(c: char): char {
    if 'a' <= c <= 'z' then ((c as int) - 32) as char else c
  }

  function ToLowerChar(c: char): char {
    if 'A' <= c <= 'Z' then ((c as int) + 32) as char else c
  }

  /** PHP `strtoupper()` (ASCII letters only). */
  function ToUpper(s: string): (r: string)
    ensures |r| == |s| && forall i | 0 <= i < |s| :: r[i] == ToUpperChar(s[i])
  {
    seq(|s|, i requires 0 <= i < |s| => ToUpperChar(s[i]))
  }

  /** PHP `strtolower()` (ASCII letters only). */
  function ToLower(s: string): (r: string)
    ensures |r| == |s| && forall i | 0 <= i < |s| :: r[i] == ToLowerChar(s[i])
  {
    seq(|s|, i requires 0 <= i < |s| => ToLowerChar(s[i]))
  }

  /** Decimal rendering of a natural number, as PHP interpolates integers. */
  function NatToString(n: nat): (r: string)
    ensures |r| >= 1 && AllDigits(r)
    ensures DigitsValue(r) == n
  {
    var d := [('0' as int + n % 10) as char];
    if n < 10 then
      assert d[..0] == [];
      d
    else
      var p := NatToString(n / 10);
      var r := p + d;
      assert r[..|r| - 1] == p;
      r
  }

  function IntToString(n: int): (r: string)
    ensures |r| >= 1
  {
    if n < 0 then "-" + NatToString(-n) else NatToString(n)
  }

  /** Removes duplicates, keeping the first occurrence of each element
      (PHP `array_unique` followed by `array_values`). */
  function Dedupe<T(==,!new)>(xs: seq<T>): (r: seq<T>)
    ensures forall x :: x in r <==> x in xs
    ensures forall i, j | 0 <= i < j < |r| :: r[i] != r[j]
  {
    DedupeFrom(xs, [])
  }

  function DedupeFrom<T(==,!new)>(xs: seq<T>, seen: seq<T>): (r: seq<T>)
    requires forall i, j | 0 <= i < j < |seen| :: seen[i] != seen[j]
    ensures forall x :: x in r <==> x in xs || x in seen
    ensures forall i, j | 0 <= i < j < |r| :: r[i] != r[j]
    ensures |seen| <= |r| && r[..|seen|] == seen
    decreases |xs|
  {
    if xs == [] then seen
    else if xs[0] in seen then DedupeFrom(xs[1..], seen)
    else DedupeFrom(xs[1..], seen + [xs[0]])
  }

  /** The elements of `xs` that are not in `ys`, in `xs` order
      (PHP `array_diff` followed by `array_values`). */
  function Without<T(==,!new)>(xs: seq<T>, ys: seq<T>): (r: seq<T>)
    ensures forall x :: x in r <==> x in xs && x !in ys
    ensures |r| <= |xs|
  {
    if xs == [] then []
    else if xs[0] in ys then Without(xs[1..], ys)
    else [xs[0]] + Without(xs[1..], ys)
  }

  /** The elements of `xs` that are also in `ys`, in `xs` order
      (PHP `array_intersect` followed by `array_values`). */
  function Within<T(==,!new)>(xs: seq<T>, ys: seq<T>): (r: seq<T>)
    ensures forall x :: x in r <==> x in xs && x in ys
    ensures |r| <= |xs|
  {
    if xs == [] then []
    else if xs[0] in ys then [xs[0]] + Within(xs[1..], ys)
    else Within(xs[1..], ys)
  }

  /** A non-empty set of ids has a member to pick. */
  lemma NonEmptyHasMember(s: set<int>)
    requires s != {}
    ensures exists a: int :: a in s
  {
    if forall a: int :: a !in s {
      assert false;
    }
  }

  /** PHP `isset($a[$k])`: the key is present and its value is not NULL. */
  predicate Isset<K>(a: map<K, PVal>, k: K) {
    k in a && a[k] != PNull
  }
}
