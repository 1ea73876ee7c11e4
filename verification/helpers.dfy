/** The plugin's global helper functions: option lookup, URL and contact
    validation, the order timeout, and the wrapping of outbound links in the
    theme's redirect page. The URL parser, `filter_var`, `is_email` and the
    theme's link builders are foreign code and are passed in. */
module Helpers {
  import opened Common
  import Compat

  /** `zibll_ad_get_option`: the stored value when the key is set to a
      non-null value (PHP `isset`), otherwise the default. */
  function GetOption(settings: map<string, PVal>, key: string, default: PVal): (r: PVal)
    ensures key in settings && settings[key] != PNull ==> r == settings[key]
    ensures key !in settings || settings[key] == PNull ==> r == default
  {
    if key in settings && !settings[key].PNull? then settings[key] else default
  }

  /** `http://` or `https://` at position 0, checked with `strpos` as the
      plugin does (it avoids `str_starts_with`). */
  predicate HttpScheme(url: string) {
    Compat.StrPos(url, "http://", 0) == Some(0) || Compat.StrPos(url, "https://", 0) == Some(0)
  }

  /** The position-zero `strpos` test is the prefix test. */
  lemma {:induction false} HttpSchemeIsPrefix(url: string)
    ensures HttpScheme(url) <==> "http://" <= url || "https://" <= url
  {
    PosZeroIsPrefix(url, "http://");
    PosZeroIsPrefix(url, "https://");
  }

  lemma PosZeroIsPrefix(s: string, needle: string)
    ensures Compat.StrPos(s, needle, 0) == Some(0) <==> needle <= s
  {
    if needle <= s {
      assert s[0..|needle|] == needle;
    }
  }

  /** `zibll_ad_validate_url`: a non-empty string that `filter_var`
      accepts and whose scheme is http or https. */
  function ValidateUrl(url: PVal, filterUrl: string -> bool): (r: bool)
    ensures r ==> url.PStr? && filterUrl(url.str)
    ensures r ==> "http://" <= url.str || "https://" <= url.str
    ensures url.PStr? && filterUrl(url.str) && ("http://" <= url.str || "https://" <= url.str) ==> r
  {
    if !url.PStr? || EmptyStr(url.str) then false
    else if !filterUrl(url.str) then false
    else
      HttpSchemeIsPrefix(url.str);
      HttpScheme(url.str)
  }

  predicate IsAsciiLetter(c: char) {
    'a' <= c <= 'z' || 'A' <= c <= 'Z'
  }

  /** The characters of `[-_a-zA-Z0-9]`. */
  predicate IsWechatChar(c: char) {
    c == '-' || c == '_' || IsAsciiLetter(c) || IsDigit(c)
  }

  /** What `[1-9][0-9]{4,}` matches in full. */
  predicate QqShape(w: string) {
    |w| >= 5 && '1' <= w[0] <= '9' && AllDigits(w)
  }

  /** What `[a-zA-Z][-_a-zA-Z0-9]{5,19}` matches in full. */
  predicate WechatShape(w: string) {
    6 <= |w| <= 20 && IsAsciiLetter(w[0]) && forall i | 1 <= i < |w| :: IsWechatChar(w[i])
  }

  /** A PCRE pattern anchored with `^` and `$`: without the `D` modifier the
      `$` also matches just before one final newline. */
  predicate Anchored(shape: string -> bool, v: string) {
    shape(v) || (|v| > 0 && v[|v| - 1] == '\n' && shape(v[..|v| - 1]))
  }

  /** The rule applied to an already-trimmed value; unknown types fail. */
  function ContactRule(kind: string, v: string, isEmail: string -> bool): (r: bool)
    ensures r ==> kind == "qq" || kind == "wechat" || kind == "email"
    ensures r && kind == "qq" ==> |v| >= 5 && '1' <= v[0] <= '9'
    ensures r && kind == "wechat" ==> 6 <= |v| <= 21 && IsAsciiLetter(v[0])
    ensures kind == "email" ==> (r <==> isEmail(v))
  {
    if kind == "qq" then Anchored(QqShape, v)
    else if kind == "wechat" then Anchored(WechatShape, v)
    else if kind == "email" then isEmail(v)
    else false
  }

  /** `zibll_ad_validate_contact`: the value must be a non-empty string,
      is trimmed, must still be non-empty, and is checked against its type. */
  function ValidateContact(kind: string, value: PVal, isEmail: string -> bool): (r: bool)
    ensures r ==> value.PStr? && !EmptyStr(Trim(value.str))
    ensures r ==> ContactRule(kind, Trim(value.str), isEmail)
    ensures value.PStr? && !EmptyStr(Trim(value.str)) && ContactRule(kind, Trim(value.str), isEmail) ==> r
  {
    if !value.PStr? then false
    else if EmptyStr(value.str) then
      TrimEmptyStr(value.str);
      false
    else
      var v := Trim(value.str);
      if EmptyStr(v) then false else ContactRule(kind, v, isEmail)
  }

  /** Some digit of `d` is not '0'. */
  predicate HasNonZeroDigit(d: string) {
    exists i | 0 <= i < |d| :: d[i] != '0'
  }

  /** The number a string starts with (after white space: an optional
      sign, digits, optionally '.' and more digits) is above zero. This is
      how PHP compares a string with 0. */
  predicate LeadingNumberPositive(s: string) {
    var t := SkipNumericSpace(s);
    if t != [] && t[0] == '-' then false
    else
      var u := if t != [] && t[0] == '+' then t[1..] else t;
      var n := DigitRun(u);
      HasNonZeroDigit(u[..n]) ||
      (n < |u| && u[n] == '.' && HasNonZeroDigit(u[n + 1..][..DigitRun(u[n + 1..])]))
  }

  /** PHP's loose `$v > 0`. */
  predicate AboveZero(v: PVal) {
    match v
    case PNull => false
    case PBool(b) => b
    case PInt(i) => i > 0
    case PStr(s) => LeadingNumberPositive(s)
    case PList(xs) => true
  }

  /** A string that passes the `> 0` test has a non-negative `intval`. */
  lemma AboveZeroIntVal(s: string)
    requires LeadingNumberPositive(s)
    ensures IntVal(s) >= 0
  {
  }

  /** `zibll_ad_get_order_timeout`: the theme's `order_pay_max_minutes`
      (`None` when the theme's `_pz` is not defined) read with `intval`
      when it is truthy and above 0, else 30. A fractional setting such as
      "0.5" passes the test and reads as 0. */
  function OrderTimeout(theme: Option<PVal>): (r: int)
    ensures r >= 0
    ensures theme.None? ==> r == 30
    ensures theme.Some? && theme.value.PInt? && theme.value.i > 0 ==> r == theme.value.i
    ensures theme.Some? && (theme.value.PInt? || theme.value.PNull?) && ToInt(theme.value) <= 0 ==> r == 30
    ensures r != 30 ==> theme.Some? && ToBool(theme.value) && AboveZero(theme.value) && r == ToInt(theme.value)
  {
    match theme
    case Some(v) =>
      if !(ToBool(v) && AboveZero(v)) then 30
      else if v.PStr? then AboveZeroIntVal(v.str); ToInt(v)
      else ToInt(v)
    case None => 30
  }

  /** A fractional window passes the test and truncates to 0 minutes. */
  lemma FractionalTimeoutIsZero()
    ensures OrderTimeout(Some(PStr("0.5"))) == 0
  {
    HalfIsAboveZero();
    HalfIntVal();
  }

  lemma HalfIsAboveZero()
    ensures LeadingNumberPositive("0.5")
  {
    var s := "0.5";
    assert !IsNumericSpace(s[0]);
    assert SkipNumericSpace(s) == s;
    assert s[1..] == ".5";
    assert DigitRun(".5") == 0;
    assert DigitRun(s) == 1;
    var f := s[2..];
    assert f == "5" && DigitRun(f) == 1 && f[..1] == "5";
    assert "5"[0] != '0';
  }

  lemma HalfIntVal()
    ensures IntVal("0.5") == 0
  {
    var s := "0.5";
    assert !IsNumericSpace(s[0]);
    assert SkipNumericSpace(s) == s;
    assert s[1..] == ".5";
    assert DigitRun(".5") == 0;
    assert DigitRun(s) == 1;
    assert s[..1] == "0";
    assert DigitsValue("0") == DigitsValue("") * 10 + 0;
  }

  /** The foreign pieces `zibll_ad_build_redirect_url` calls: `filter_var`,
      the path and query parts of `wp_parse_url`, the `golink` entry of
      `parse_str` on a query, the first theme link builder that exists, and
      the `home_url('?golink=' . base64 …)` fallback. */
  datatype RedirectEnv = RedirectEnv(
    filterUrl: string -> bool,
    urlPath: string -> string,
    urlQuery: string -> string,
    golinkParam: string -> string,
    themeLink: Option<string -> string>,
    fallbackLink: string -> string)

  /** The link already points at the redirect page or carries its
      parameter, so wrapping it again would double-wrap it. */
  predicate AlreadyWrapped(url: string, env: RedirectEnv) {
    (!EmptyStr(env.urlPath(url)) && Compat.StrContains(env.urlPath(url), "go.php"))
    || (!EmptyStr(env.urlQuery(url)) && !EmptyStr(env.golinkParam(env.urlQuery(url))))
  }

  /** `zibll_ad_build_redirect_url`. */
  function BuildRedirectUrl(url: string, env: RedirectEnv): (r: string)
    ensures !ValidateUrl(PStr(url), env.filterUrl) ==> r == url
    ensures AlreadyWrapped(url, env) ==> r == url
    ensures r != url ==>
      ("http://" <= url || "https://" <= url) && !AlreadyWrapped(url, env)
    ensures ValidateUrl(PStr(url), env.filterUrl) && !AlreadyWrapped(url, env) ==>
      r == (if env.themeLink.Some? then env.themeLink.value(url) else env.fallbackLink(url))
  {
    if !ValidateUrl(PStr(url), env.filterUrl) then url
    else
      var path := env.urlPath(url);
      if !EmptyStr(path) && Compat.StrContains(path, "go.php") then url
      else
        var query := env.urlQuery(url);
        if !EmptyStr(query) && !EmptyStr(env.golinkParam(query)) then url
        else if env.themeLink.Some? then env.themeLink.value(url)
        else env.fallbackLink(url)
  }

  /** When the theme's link builder (or the fallback) returns a link that
      is itself recognised as wrapped, wrapping twice is wrapping once. */
  lemma WrappingIsIdempotent(url: string, env: RedirectEnv)
    requires env.themeLink.Some? ==> AlreadyWrapped(env.themeLink.value(url), env)
    requires env.themeLink.None? ==> AlreadyWrapped(env.fallbackLink(url), env)
    ensures BuildRedirectUrl(BuildRedirectUrl(url, env), env) == BuildRedirectUrl(url, env)
  {
  }

  /** `zibll_ad_maybe_redirect_url`: the `link_redirect` setting (default
      on) decides whether links are wrapped at all. */
  function MaybeRedirectUrl(settings: map<string, PVal>, url: string, env: RedirectEnv): (r: string)
    ensures !ToBool(GetOption(settings, "link_redirect", PBool(true))) ==> r == url
    ensures r != url ==> "http://" <= url || "https://" <= url
  {
    if !ToBool(GetOption(settings, "link_redirect", PBool(true))) then url
    else BuildRedirectUrl(url, env)
  }

  /** With `link_redirect` unset, or set to anything truthy, every link is
      wrapped; set to something falsy, none is. */
  lemma RedirectOnByDefault(settings: map<string, PVal>, url: string, env: RedirectEnv)
    ensures "link_redirect" !in settings || settings["link_redirect"] == PNull || ToBool(settings["link_redirect"]) ==>
      MaybeRedirectUrl(settings, url, env) == BuildRedirectUrl(url, env)
    ensures "link_redirect" in settings && settings["link_redirect"] != PNull && !ToBool(settings["link_redirect"]) ==>
      MaybeRedirectUrl(settings, url, env) == url
  {
  }
}
