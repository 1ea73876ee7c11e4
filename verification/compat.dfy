/** The polyfills the plugin defines for older PHP versions:
    `str_contains`, `str_starts_with`, `str_ends_with` (byte strings) and
    `array_key_first`, `array_key_last` (an array is its sequence of keys in
    insertion order). */
module Compat {
  import opened Common

  /** `needle` occurs in `s` at position `i`. */
  predicate OccursAt(s: string, needle: string, i: int) {
    0 <= i && i + |needle| <= |s| && s[i..i + |needle|] == needle
  }

  /** PHP `strpos`: the first position of `needle` in `s` at or after `from`. */
  function StrPos(s: string, needle: string, from: nat): (r: Option<nat>)
    ensures r.Some? ==> from <= r.value && OccursAt(s, needle, r.value)
    ensures r.Some? ==> forall j | from <= j < r.value :: !OccursAt(s, needle, j)
    ensures r.None? ==> forall j | from <= j :: !OccursAt(s, needle, j)
    decreases |s| - from
  {
    if from + |needle| > |s| then None
    else if s[from..from + |needle|] == needle then Some(from)
    else StrPos(s, needle, from + 1)
  }

  /** `str_contains`: true for the empty needle, otherwise `strpos` finds it. */
  function StrContains(haystack: string, needle: string): (r: bool)
    ensures r <==> exists i :: OccursAt(haystack, needle, i)
  {
    if needle == "" then
      assert OccursAt(haystack, needle, 0);
      true
    else StrPos(haystack, needle, 0).Some?
  }

  /** PHP `strncmp(a, b, n) === 0`: the first `n` bytes of each agree, where
      a string shorter than `n` contributes all of itself. */
  predicate StrnEqual(a: string, b: string, n: nat) {
    a[..Min(n, |a|)] == b[..Min(n, |b|)]
  }

  /** `str_starts_with`: holds exactly when `needle` is a prefix. */
  function StrStartsWith(haystack: string, needle: string): (r: bool)
    ensures r <==> needle <= haystack
  {
    needle == "" || StrnEqual(haystack, needle, |needle|)
  }

  /** PHP `substr(s, -k)` for `k > 0`: the last `k` bytes, or all of `s`
      when it is shorter. */
  function Tail(s: string, k: nat): (r: string)
    requires k > 0
  {
    if k >= |s| then s else s[|s| - k..]
  }

  /** `str_ends_with`: holds exactly when `needle` is a suffix. */
  function StrEndsWith(haystack: string, needle: string): (r: bool)
    ensures r <==> |needle| <= |haystack| && haystack[|haystack| - |needle|..] == needle
  {
    needle == "" || Tail(haystack, |needle|) == needle
  }

  /** `array_key_first`: the loop returns the first key it sees. */
  function ArrayKeyFirst<K>(keys: seq<K>): (r: Option<K>)
    ensures r.None? <==> keys == []
    ensures r.Some? ==> r.value == keys[0]
  {
    if keys == [] then None else Some(keys[0])
  }

  /** `array_key_last`: the loop keeps overwriting `$key`, from `acc` on. */
  function KeyLastFrom<K>(keys: seq<K>, acc: Option<K>): (r: Option<K>)
    ensures keys == [] ==> r == acc
    ensures keys != [] ==> r == Some(keys[|keys| - 1])
  {
    if keys == [] then acc else KeyLastFrom(keys[1..], Some(keys[0]))
  }

  function ArrayKeyLast<K>(keys: seq<K>): (r: Option<K>)
    ensures r.None? <==> keys == []
    ensures r.Some? ==> r.value == keys[|keys| - 1]
  {
    KeyLastFrom(keys, None)
  }

  /** The last key of an array is the first key of the reversed array. */
  lemma {:induction false} LastIsFirstOfReverse<K>(keys: seq<K>)
    ensures ArrayKeyLast(keys) == ArrayKeyFirst(Reverse(keys))
  {
    if keys != [] {
      assert Reverse(keys)[0] == keys[|keys| - 1];
    }
  }

  function Reverse<K>(s: seq<K>): (r: seq<K>)
    ensures |r| == |s| && forall i | 0 <= i < |s| :: r[i] == s[|s| - 1 - i]
  {
    if s == [] then [] else Reverse(s[1..]) + [s[0]]
  }
}
