/** The URL and contact validators of the purchase handler class, and
    how they differ from the global helpers. */
module Validators {
  import opened Common
  import Helpers

  /** `validate_url` of the class: non-empty, accepted by `filter_var`,
      http or https. */
  predicate AjaxValidateUrl(url: string, filterUrl: string -> bool) {
    !EmptyStr(url) && filterUrl(url) && Helpers.HttpScheme(url)
  }

  /** The URL check of the class is that of the global helper on a string. */
  lemma UrlValidatorsAgree(url: string, filterUrl: string -> bool)
    ensures AjaxValidateUrl(url, filterUrl) == Helpers.ValidateUrl(PStr(url), filterUrl)
  {
  }

  /** `validate_contact` of the class: unlike the global helper it does
      not trim the value first. */
  predicate AjaxValidateContact(kind: string, value: string, isEmail: string -> bool) {
    !EmptyStr(value) && Helpers.ContactRule(kind, value, isEmail)
  }

  /** On a value with no blank at either end (as `sanitize_text_field`
      leaves it) the two contact checks agree. */
  lemma ContactValidatorsAgreeOnTrimmed(kind: string, value: string, isEmail: string -> bool)
    requires value == [] || (!IsTrimChar(value[0]) && !IsTrimChar(value[|value| - 1]))
    ensures AjaxValidateContact(kind, value, isEmail) == Helpers.ValidateContact(kind, PStr(value), isEmail)
  {
    if value != [] {
      TrimKeeps(value);
    }
  }

  /** A QQ number with a leading blank (" 12345", say) passes the global
      helper, which trims, and fails the check of the class, which does not. */
  lemma ContactValidatorsDifferOnPadding(d: string, isEmail: string -> bool)
    requires Helpers.QqShape(d)
    ensures Helpers.ValidateContact("qq", PStr([' '] + d), isEmail)
    ensures !AjaxValidateContact("qq", [' '] + d, isEmail)
  {
    var s := [' '] + d;
    PaddedTrim(d);
    assert Helpers.ContactRule("qq", d, isEmail) && !EmptyStr(d);
    assert !Helpers.ContactRule("qq", s, isEmail) by {
      assert !Helpers.QqShape(s);
      assert s[|s| - 1] == d[|d| - 1];
    }
  }

  /** A leading blank is trimmed away from a string that has no other
      trimmable end. */
  lemma PaddedTrim(d: string)
    requires d != [] && !IsTrimChar(d[0]) && !IsTrimChar(d[|d| - 1])
    ensures Trim([' '] + d) == d
  {
    var s := [' '] + d;
    assert s[1..] == d;
    assert TrimLeft(s) == TrimLeft(d);
    TrimKeeps(d);
    assert TrimLeft(d) == d;
  }
}
