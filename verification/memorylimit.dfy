/** `parse_memory_limit` of the purchase handler: a `php.ini` size such
    as "128M" read as a number of bytes, with PHP's `intval` for the
    digits. */
module MemoryLimit {
  import opened Common

  /** `parse_memory_limit`: "" / "0" and "-1" mean no limit; otherwise the
      last character selects G, M or K (either case) and the rest is read
      with `intval`; with any other last character the whole trimmed
      string is read as bytes. */
  function ParseMemoryLimit(size: string): (r: int)
    ensures EmptyStr(size) || size == "-1" ==> r == PhpIntMax
    ensures !EmptyStr(size) && size != "-1" && Trim(size) == [] ==> r == 0
  {
    if EmptyStr(size) || size == "-1" then PhpIntMax
    else ParseSized(Trim(size))
  }

  /** The trimmed, non-sentinel part of `parse_memory_limit`. */
  function ParseSized(t: string): (r: int)
    ensures t == [] ==> r == 0
  {
    if t == [] then 0
    else
      var unit := ToUpperChar(t[|t| - 1]);
      var value := IntVal(t[..|t| - 1]);
      if unit == 'G' then value * 1024 * 1024 * 1024
      else if unit == 'M' then value * 1024 * 1024
      else if unit == 'K' then value * 1024
      else IntVal(t)
  }

  /** A string of two or more characters not starting with '-' is none of
      the sentinels "", "0" and "-1". */
  lemma NotSentinel(s: string)
    requires |s| >= 2 && s[0] != '-'
    ensures !EmptyStr(s) && s != "-1"
  {
    assert |"0"| == 1 && |""| == 0 && "-1"[0] == '-';
  }

  lemma {:induction false} DigitRunOfDigits(s: string)
    requires AllDigits(s)
    ensures DigitRun(s) == |s|
  {
    if s != [] {
      DigitRunOfDigits(s[1..]);
    }
  }

  /** `intval` reads back a rendered natural number. */
  lemma IntValOfNat(n: nat)
    ensures IntVal(NatToString(n)) == n
  {
    IntValOfDigits(NatToString(n));
  }

  /** `intval` of a string of digits is the number they spell. */
  lemma IntValOfDigits(s: string)
    requires |s| >= 1 && AllDigits(s)
    ensures IntVal(s) == DigitsValue(s)
  {
    assert IsDigit(s[0]);
    assert SkipNumericSpace(s) == s;
    DigitRunOfDigits(s);
    assert s[..|s|] == s;
  }

  /** A limit written as a number of megabytes, as `php.ini` writes it,
      is read as that many mebibytes; the lower-case suffix reads the same. */
  lemma MegabytesRead(n: nat)
    ensures ParseMemoryLimit(NatToString(n) + "M") == n * 1048576
    ensures ParseMemoryLimit(NatToString(n) + "m") == n * 1048576
  {
    IntValOfNat(n);
    SuffixRead(NatToString(n), 'M');
    SuffixRead(NatToString(n), 'm');
  }

  lemma SuffixRead(d: string, c: char)
    requires |d| >= 1 && AllDigits(d) && (c == 'M' || c == 'm')
    ensures ParseMemoryLimit(d + [c]) == IntVal(d) * 1048576
  {
    var s := d + [c];
    assert s[0] == d[0] && s[|s| - 1] == c && s[..|s| - 1] == d;
    NotSentinel(s);
    TrimKeeps(s);
    assert ToUpperChar(c) == 'M';
    assert ParseSized(s) == IntVal(d) * 1024 * 1024;
  }
}
