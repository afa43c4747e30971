/**
 * The parts of a HAR capture that the enroll importers read, and the tests they share:
 * the request URL must name the public enroll host (case-insensitively), the response
 * must carry text, a base64 body is decoded, and the body must look like JSON.
 * Both app/api/admin/import/enroll/route.ts and scripts/har-extract-enroll.ts apply
 * them to each entry of `har.log.entries`.
 */
module Har {
  import opened Common
  import opened Text
  import opened Js

  /** The host named by `/public\.enroll\.wisc\.edu/i`, in lower case. */
  const EnrollHost: string := "public.enroll.wisc.edu"

  /**
   * The host test. The pattern is ASCII and the flag `i` without `u` folds ASCII
   * letters only, so lowering the URL's ASCII letters decides it.
   */
  predicate MatchesEnrollHost(url: string) {
    Contains(Lower(url), EnrollHost)
  }

  /** `e.request?.url || ''`; reading `e.request` throws when the entry is `null`. */
  function EntryUrl(e: Value): Result<Value, Exception> {
    if Nullish(e) then Err(TypeError) else Ok(Or(GetOpt(GetOpt(e, "request"), "url"), Str("")))
  }

  /** `regex.test(url)`, which converts the URL to a string first. */
  function FromEnrollHost(url: Value): Result<bool, Exception> {
    var s :- ToStr(url);
    Ok(MatchesEnrollHost(s))
  }

  /** `e.response?.content` */
  function ContentOf(e: Value): Value {
    GetOpt(GetOpt(e, "response"), "content")
  }

  /** `!c?.text`: the entry has no usable text. */
  predicate NoText(c: Value) {
    !Truthy(GetOpt(c, "text"))
  }

  /**
   * The body: `c.text`, replaced by `Buffer.from(text, 'base64').toString('utf8')`
   * (given as `decode`) when `c.encoding === 'base64'`. A non-string text makes the
   * conversion throw, which is caught, so the text stays as it was.
   */
  function Body(c: Value, decode: string -> string): Value {
    var text := GetOpt(c, "text");
    if GetOpt(c, "encoding") == Str("base64") && text.Str? then Str(decode(text.s)) else text
  }

  /** `body.trim().startsWith('{') || body.trim().startsWith('[')` */
  predicate LooksLikeJson(body: string) {
    StartsWith(Trim(body), "{") || StartsWith(Trim(body), "[")
  }

  lemma LowerUpper(s: string)
    ensures Lower(Upper(s)) == Lower(s)
  {
    assert forall i :: 0 <= i < |s| ==> Lower(Upper(s))[i] == LowerChar(UpperChar(s[i])) == Lower(s)[i];
  }

  /** The host test ignores case: upper-casing or lower-casing a URL does not change it. */
  lemma EnrollHostIgnoresCase(url: string)
    ensures MatchesEnrollHost(Upper(url)) <==> MatchesEnrollHost(url)
    ensures MatchesEnrollHost(Lower(url)) <==> MatchesEnrollHost(url)
  {
    LowerUpper(url);
    assert Lower(Lower(url)) == Lower(url) by {
      assert forall i :: 0 <= i < |url| ==> Lower(Lower(url))[i] == LowerChar(LowerChar(url[i])) == Lower(url)[i];
    }
  }

  /** Whitespace before the opening brace does not matter. */
  lemma SpaceBeforeJson(c: char, body: string)
    requires IsSpace(c)
    ensures LooksLikeJson([c] + body) <==> LooksLikeJson(body)
  {
    TrimSkipsSpace(c, body);
  }

  lemma EmptyObjectIsJson()
    ensures LooksLikeJson("{}")
  {
    TrimKeeps("{}");
    assert Trim("{}")[..1] == "{";
  }

  lemma LeadingSpaceBeforeJson()
    ensures LooksLikeJson([' ', '\n', '{', '}'])
  {
    assert [' ', '\n', '{', '}'] == [' '] + (['\n'] + "{}");
    EmptyObjectIsJson();
    SpaceBeforeJson('\n', "{}");
    SpaceBeforeJson(' ', ['\n'] + "{}");
  }

  /** A page of markup is not taken for a payload. */
  lemma MarkupIsNotJson()
    ensures !LooksLikeJson("<html>")
  {
    var a := "<html>";
    assert !IsSpace(a[0]) && !IsSpace(a[5]);
    assert TrimStart(a) == a;
    assert TrimEnd(a) == a;
    assert Trim(a)[0] == '<';
  }
}
