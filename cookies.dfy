/**
 * Session-cookie capture shared by both protocol handlers: the first Set-Cookie value
 * that starts with TP_SESSIONID, cut at its first ';'.
 */
module Cookies {
  import opened Wrappers
  import opened Text

  const SessionCookieName: string := "TP_SESSIONID"

  /** `s.Split(';')[0]`: the text before the first ';', or all of it when there is none. */
  function BeforeSemicolon(s: string): (r: string)
    ensures r <= s
    ensures ';' !in r
    ensures |r| < |s| ==> s[|r|] == ';'
    decreases |s|
  {
    if |s| == 0 || s[0] == ';' then "" else [s[0]] + BeforeSemicolon(s[1..])
  }

  /** `cookies.FirstOrDefault(c => c.StartsWith("TP_SESSIONID"))?.Split(';')[0]`. */
  function SessionCookie(setCookies: seq<string>): (r: Option<string>)
    ensures r == None <==> forall i :: 0 <= i < |setCookies| ==> !StartsWith(setCookies[i], SessionCookieName)
    ensures r.Some? ==> StartsWith(r.value, SessionCookieName) && ';' !in r.value
    decreases |setCookies|
  {
    if |setCookies| == 0 then None
    else if StartsWith(setCookies[0], SessionCookieName) then Some(BeforeSemicolon(setCookies[0]))
    else SessionCookie(setCookies[1..])
  }

  /** The captured cookie comes from the first matching header value, not a later one. */
  lemma {:induction false} SessionCookieIsFirstMatch(setCookies: seq<string>, i: nat)
    requires i < |setCookies| && StartsWith(setCookies[i], SessionCookieName)
    requires forall j :: 0 <= j < i ==> !StartsWith(setCookies[j], SessionCookieName)
    ensures SessionCookie(setCookies) == Some(BeforeSemicolon(setCookies[i]))
    decreases i
  {
    if i > 0 {
      SessionCookieIsFirstMatch(setCookies[1..], i - 1);
    }
  }

  /** The session cookie after a response: a captured one replaces the old, otherwise the old stays. */
  function UpdatedCookie(previous: Option<string>, setCookies: seq<string>): Option<string>
  {
    match SessionCookie(setCookies)
    case Some(c) => Some(c)
    case None => previous
  }
}
