/** `is_url`: the URL predicate that also accepts a missing value. */
module Utils {
  import opened Basics
  import opened Text
  import Validator

  /** False for None or the empty string; otherwise the length and prefix test. */
  function IsUrl(url: Option<string>): (r: bool)
    ensures url.None? ==> !r
    ensures url == Some("") ==> !r
    ensures r ==> |url.value| > 10
  {
    match url
    case None => false
    case Some(s) =>
      if |s| == 0 then false
      else |s| > 10 && (StartsWith(s, "http://") || StartsWith(s, "https://"))
  }

  /** `is_url` and the validator's `simple_check_url` agree on every string. */
  lemma {:induction false} IsUrlAgreesWithSimpleCheckUrl(s: string)
    ensures IsUrl(Some(s)) <==> Validator.SimpleCheckUrl(s)
  {
  }

  /** The prefix alone is not enough: ten characters are rejected. */
  lemma {:induction false} ShortUrlRejected()
    ensures !IsUrl(Some("http://a.b"))
    ensures IsUrl(Some("http://a.bc"))
  {
    assert "http://a.bc"[..7] == "http://";
  }
}
