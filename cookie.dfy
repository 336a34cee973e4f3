/**
 * The cookie helpers: a jar maps cookie names to cookies, and adding a
 * cookie replaces any cookie of the same name.
 */
module Cookies {
  import opened Wrappers

  /** A cookie as `set_cookie_value` builds it: always on path "/" and SameSite=Lax. */
  datatype Cookie = Cookie(value: string, path: string, maxAge: nat, httpOnly: bool, secure: bool, sameSite: string)

  type Jar = map<string, Cookie>

  /** `get_cookie_value`: the value of the named cookie, if any. */
  function GetCookieValue(jar: Jar, key: string): (r: Option<string>)
    ensures r.Some? <==> key in jar
    ensures r.Some? ==> r.value == jar[key].value
  {
    if key in jar then Some(jar[key].value) else None
  }

  /** `is_cookie_exist`. */
  predicate IsCookieExist(jar: Jar, key: string)
  {
    key in jar
  }

  /** `set_cookie_value`: the named cookie is replaced; every other cookie stays. */
  function SetCookieValue(jar: Jar, key: string, value: string, age: nat, only: bool, secure: bool): (r: Jar)
    ensures r.Keys == jar.Keys + {key}
    ensures GetCookieValue(r, key) == Some(value)
    ensures r[key] == Cookie(value, "/", age, only, secure, "Lax")
    ensures forall k :: k in jar && k != key ==> r[k] == jar[k]
  {
    jar[key := Cookie(value, "/", age, only, secure, "Lax")]
  }

  /** `remove_cookie`: the named cookie is gone from the jar the browser keeps; every other cookie stays. */
  function RemoveCookie(jar: Jar, key: string): (r: Jar)
    ensures !IsCookieExist(r, key)
    ensures r.Keys == jar.Keys - {key}
    ensures forall k :: k in r ==> r[k] == jar[k]
  {
    jar - {key}
  }

  /** Removing a cookie undoes setting it on a jar that did not hold it. */
  lemma RemoveAfterSet(jar: Jar, key: string, value: string, age: nat, only: bool, secure: bool)
    requires !IsCookieExist(jar, key)
    ensures RemoveCookie(SetCookieValue(jar, key, value, age, only, secure), key) == jar
  {
    var r := RemoveCookie(SetCookieValue(jar, key, value, age, only, secure), key);
    assert r.Keys == jar.Keys;
  }
}
