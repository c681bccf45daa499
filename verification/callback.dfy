/** The OAuth callback page of the client: it reads the authorization code from its own
    address and computes the redirect address it was reached through. */
module Callback {
  import opened Wrappers
  import opened Strings

  /** `s.substr(start)`: the text from `start` on, empty when `start` lies past the end. */
  function Substr(s: string, start: nat): string
  {
    if start <= |s| then s[start..] else ""
  }

  /** `pairs.find(x => x.startsWith(prefix))` */
  function FindWithPrefix(pairs: seq<string>, prefix: string): (r: Option<string>)
    ensures r.None? <==> forall i :: 0 <= i < |pairs| ==> !StartsWith(pairs[i], prefix)
    ensures r.Some? ==> exists i :: 0 <= i < |pairs| && pairs[i] == r.value && StartsWith(r.value, prefix) &&
                                    (forall j :: 0 <= j < i ==> !StartsWith(pairs[j], prefix))
  {
    if pairs == [] then None
    else if StartsWith(pairs[0], prefix) then Some(pairs[0])
    else
      var r := FindWithPrefix(pairs[1..], prefix);
      assert forall i :: 1 <= i < |pairs| ==> pairs[i] == pairs[1..][i - 1];
      if r.Some? then
        var i :| 0 <= i < |pairs[1..]| && pairs[1..][i] == r.value && StartsWith(r.value, prefix) &&
                 (forall j :: 0 <= j < i ==> !StartsWith(pairs[1..][j], prefix));
        assert pairs[i + 1] == r.value;
        r
      else
        r
  }

  /** The pair found is the first one that starts with the prefix. */
  lemma {:induction false} FindAt(pairs: seq<string>, prefix: string, m: nat)
    requires m < |pairs| && StartsWith(pairs[m], prefix)
    requires forall j :: 0 <= j < m ==> !StartsWith(pairs[j], prefix)
    ensures FindWithPrefix(pairs, prefix) == Some(pairs[m])
  {
    if m > 0 {
      assert forall j :: 0 <= j < m - 1 ==> pairs[1..][j] == pairs[j + 1];
      FindAt(pairs[1..], prefix, m - 1);
    }
  }

  /** The value that a query string gives `key`: the first `&`-separated pair that starts
      with `key`, less its first `key.length + 1` characters. */
  function ValueIn(query: string, key: string): Option<string>
  {
    match FindWithPrefix(Split(query, '&'), key)
    case None => None
    case Some(pair) => Some(Substr(pair, |key| + 1))
  }

  /** `getValueFromUrl(key)` on the page address `url`; null stands for the TypeError the
      page raises when the address has no `?` or no pair matches. */
  function GetValueFromUrl(url: string, key: string): (r: Option<string>)
    ensures '?' !in url ==> r.None?
  {
    var parts := Split(url, '?');
    if |parts| < 2 then None else ValueIn(parts[1], key)
  }

  /** Only the text between the first `?` and the next one is consulted. */
  lemma GetValueFromQuery(path: string, query: string, rest: string, key: string)
    requires '?' !in path && '?' !in query
    requires rest == [] || rest[0] == '?'
    ensures GetValueFromUrl(path + "?" + query + rest, key) == ValueIn(query, key)
  {
    assert path + "?" + query + rest == path + ['?'] + (query + rest);
    SplitAfter(path, '?', query + rest);
    FirstPiece(query, '?', rest);
  }

  /** The value of a pair `key=value` is found when no earlier pair starts with `key`. */
  lemma {:induction false} ValueOfPair(before: seq<string>, key: string, value: string, after: seq<string>)
    requires forall i :: 0 <= i < |before| ==> '&' !in before[i]
    requires forall i :: 0 <= i < |after| ==> '&' !in after[i]
    requires '&' !in key && '&' !in value
    requires forall i :: 0 <= i < |before| ==> !StartsWith(before[i], key)
    ensures ValueIn(Join(before + [key + "=" + value] + after, "&"), key) == Some(value)
  {
    var pairs := before + [key + "=" + value] + after;
    forall i | 0 <= i < |pairs| ensures '&' !in pairs[i] {
      if i < |before| { assert pairs[i] == before[i]; }
      else if i > |before| { assert pairs[i] == after[i - |before| - 1]; }
    }
    SplitJoin(pairs, '&');
    assert (key + "=" + value)[..|key|] == key;
    assert pairs[|before|] == key + "=" + value;
    assert forall j :: 0 <= j < |before| ==> pairs[j] == before[j];
    FindAt(pairs, key, |before|);
    assert (key + "=" + value)[|key| + 1..] == value;
  }

  lemma NotStartsWith(s: string, p: string)
    requires s != [] && p != [] && s[0] != p[0]
    ensures !StartsWith(s, p)
  {
    if |p| <= |s| {
      assert s[..|p|][0] != p[0];
    }
  }

  /** The address `path?key<extra>=<first>&key=<second>`, whose first pair's name only
      starts with `key`. */
  function CollidingUrl(path: string, key: string, extra: string, first: string, second: string): string
  {
    path + "?" + Join([key + extra + "=" + first, key + "=" + second], "&")
  }

  /** A pair whose name merely starts with the key is taken for it, and its value keeps the
      end of that longer name: with `codex=1` before `code=abc`, the page reads the code
      `=1`, where the whole-name lookup reads `abc`. */
  lemma PrefixCollision(path: string, key: string, extra: string, first: string, second: string)
    requires '?' !in path && '?' !in key && '?' !in extra && '?' !in first && '?' !in second
    requires '&' !in key && '&' !in extra && '&' !in first && '&' !in second
    requires extra != [] && extra[0] != '='
    ensures GetValueFromUrl(CollidingUrl(path, key, extra, first, second), key) == Some(extra[1..] + "=" + first)
    ensures GetValueOfKeyFromUrl(CollidingUrl(path, key, extra, first, second), key) == Some(second)
  {
    var p1, p2 := key + extra + "=" + first, key + "=" + second;
    TwoPairQuery(path, p1, p2, key);
    assert p1[..|key|] == key;
    assert p1[|key| + 1..] == extra[1..] + "=" + first;
    assert p1[..|key + "="|][|key|] != (key + "=")[|key|];
    assert p2[..|key + "="|] == key + "=";
    assert p2[|key| + 1..] == second;
  }

  /** Two pairs free of `&` joined by one split back into the two. */
  lemma PairsOfTwo(p1: string, p2: string)
    requires '&' !in p1 && '&' !in p2
    ensures Split(p1 + "&" + p2, '&') == [p1, p2]
  {
    SplitAfter(p1, '&', p2);
    assert Split(p2, '&') == [p2];
  }

  /** The first of two pairs that starts with the prefix. */
  function FirstOfTwo(p1: string, p2: string, prefix: string, skip: nat): Option<string>
  {
    if StartsWith(p1, prefix) then Some(Substr(p1, skip))
    else if StartsWith(p2, prefix) then Some(Substr(p2, skip))
    else None
  }

  /** An address with a query of two pairs reads the first pair that matches. */
  lemma TwoPairQuery(path: string, p1: string, p2: string, key: string)
    requires '?' !in path && '?' !in p1 && '?' !in p2 && '&' !in p1 && '&' !in p2
    ensures GetValueFromUrl(path + "?" + Join([p1, p2], "&"), key) == FirstOfTwo(p1, p2, key, |key| + 1)
    ensures GetValueOfKeyFromUrl(path + "?" + Join([p1, p2], "&"), key) == FirstOfTwo(p1, p2, key + "=", |key| + 1)
  {
    var query := p1 + "&" + p2;
    assert Join([p1, p2], "&") == query;
    assert path + "?" + query == path + "?" + query + "";
    GetValueFromQuery(path, query, "", key);
    GetValueOfKeyFromQuery(path, query, "", key);
    PairsOfTwo(p1, p2);
    assert [p1, p2][1..] == [p2];
  }

  /** The colliding address with `code` as the key and `codex=1` before `code=abc`. */
  lemma CodexAddress()
    ensures CollidingUrl("/callback", "code", "x", "1", "abc") == "/callback?codex=1&code=abc"
  {
    assert "code" + "x" + "=" + "1" == "codex=1";
    assert "code" + "=" + "abc" == "code=abc";
    var pairs := ["codex=1", "code=abc"];
    assert pairs[1..] == ["code=abc"];
    assert Join(pairs, "&") == "codex=1&code=abc";
  }

  lemma CodexCollision()
    ensures GetValueFromUrl(CollidingUrl("/callback", "code", "x", "1", "abc"), "code") == Some("=1")
    ensures GetValueOfKeyFromUrl(CollidingUrl("/callback", "code", "x", "1", "abc"), "code") == Some("abc")
  {
    PrefixCollision("/callback", "code", "x", "1", "abc");
    assert "x"[1..] + "=" + "1" == "=1";
  }

  /** The input that shows it. */
  lemma PrefixCollisionExample()
    ensures GetValueFromUrl("/callback?codex=1&code=abc", "code") == Some("=1")
    ensures GetValueOfKeyFromUrl("/callback?codex=1&code=abc", "code") == Some("abc")
  {
    CodexAddress();
    CodexCollision();
  }

  /** The value of the pair named exactly `key`, as the page intends. */
  function ValueOfKey(query: string, key: string): Option<string>
  {
    match FindWithPrefix(Split(query, '&'), key + "=")
    case None => None
    case Some(pair) => Some(Substr(pair, |key| + 1))
  }

  /** `getValueFromUrl` matching the whole pair name. */
  function GetValueOfKeyFromUrl(url: string, key: string): (r: Option<string>)
    ensures '?' !in url ==> r.None?
  {
    var parts := Split(url, '?');
    if |parts| < 2 then None else ValueOfKey(parts[1], key)
  }

  /** Only the text between the first `?` and the next one is consulted. */
  lemma GetValueOfKeyFromQuery(path: string, query: string, rest: string, key: string)
    requires '?' !in path && '?' !in query
    requires rest == [] || rest[0] == '?'
    ensures GetValueOfKeyFromUrl(path + "?" + query + rest, key) == ValueOfKey(query, key)
  {
    assert path + "?" + query + rest == path + ['?'] + (query + rest);
    SplitAfter(path, '?', query + rest);
    FirstPiece(query, '?', rest);
  }

  /** Matching the whole name, `key=value` is found whatever the earlier pairs' names
      start with, as long as none of them is `key` itself. */
  lemma {:induction false} ValueOfKeyPair(before: seq<string>, key: string, value: string, after: seq<string>)
    requires forall i :: 0 <= i < |before| ==> '&' !in before[i]
    requires forall i :: 0 <= i < |after| ==> '&' !in after[i]
    requires '&' !in key && '&' !in value
    requires forall i :: 0 <= i < |before| ==> !StartsWith(before[i], key + "=")
    ensures ValueOfKey(Join(before + [key + "=" + value] + after, "&"), key) == Some(value)
  {
    var pairs := before + [key + "=" + value] + after;
    forall i | 0 <= i < |pairs| ensures '&' !in pairs[i] {
      if i < |before| { assert pairs[i] == before[i]; }
      else if i > |before| { assert pairs[i] == after[i - |before| - 1]; }
    }
    SplitJoin(pairs, '&');
    assert (key + "=" + value)[..|key + "="|] == key + "=";
    assert pairs[|before|] == key + "=" + value;
    assert forall j :: 0 <= j < |before| ==> pairs[j] == before[j];
    FindAt(pairs, key + "=", |before|);
    assert (key + "=" + value)[|key| + 1..] == value;
  }

  const CallbackPath: string := "/callback"

  /** The redirect address: `href` up to its last `/`, then `/callback`; with no `/` at
      all, just `/callback`. */
  function RedirectUri(href: string): (r: string)
    ensures EndsWith(r, CallbackPath)
    ensures '/' !in href ==> r == CallbackPath
    ensures '/' in href ==>
      var i := |r| - |CallbackPath|;
      i < |href| && href[i] == '/' && r[..i] == href[..i] && '/' !in href[i + 1..]
  {
    var i := LastIndexOf(href, '/');
    var r := (if i < 0 then "" else href[..i]) + CallbackPath;
    assert r[|r| - |CallbackPath|..] == CallbackPath;
    r
  }

  /** What the page does when it opens. */
  datatype CallbackAction =
    | Stay                                       // no `code` in the address
    | FinishDriveAccess(code: string, redirect: string)
    | TypeError                                  // `getValueFromUrl` found no value

  /** `ngOnInit` on the page address `href`. */
  function OnInit(href: string): (r: CallbackAction)
    ensures !Contains(href, "code") <==> r == Stay
    ensures r == TypeError <==> Contains(href, "code") && GetValueFromUrl(href, "code").None?
    ensures r.FinishDriveAccess? <==> Contains(href, "code") && GetValueFromUrl(href, "code").Some?
    ensures r.FinishDriveAccess? ==> Some(r.code) == GetValueFromUrl(href, "code") && r.redirect == RedirectUri(href)
  {
    if Contains(href, "code") then
      match GetValueFromUrl(href, "code")
      case None => TypeError
      case Some(code) => FinishDriveAccess(code, RedirectUri(href))
    else Stay
  }

  /** An address whose query names no pair `code...` but holds `code` elsewhere, as the
      consent page's `state=googlecode` does on a refusal, makes the page fail. */
  lemma {:induction false} NoCodePairFails(path: string, pairs: seq<string>)
    requires '?' !in path && |pairs| >= 1
    requires forall i :: 0 <= i < |pairs| ==> '&' !in pairs[i] && '?' !in pairs[i] && !StartsWith(pairs[i], "code")
    requires Contains(path + "?" + Join(pairs, "&"), "code")
    ensures OnInit(path + "?" + Join(pairs, "&")) == TypeError
  {
    QueryFree(pairs);
    assert path + "?" + Join(pairs, "&") == path + "?" + Join(pairs, "&") + "";
    GetValueFromQuery(path, Join(pairs, "&"), "", "code");
    SplitJoin(pairs, '&');
  }

  /** The same address leaves the corrected page where it is. */
  lemma {:induction false} NoCodePairStays(path: string, pairs: seq<string>)
    requires '?' !in path && |pairs| >= 1
    requires forall i :: 0 <= i < |pairs| ==> '&' !in pairs[i] && '?' !in pairs[i] && !StartsWith(pairs[i], "code")
    ensures OnInitChecked(path + "?" + Join(pairs, "&")) == Stay
  {
    QueryFree(pairs);
    assert path + "?" + Join(pairs, "&") == path + "?" + Join(pairs, "&") + "";
    GetValueOfKeyFromQuery(path, Join(pairs, "&"), "", "code");
    SplitJoin(pairs, '&');
    forall i | 0 <= i < |pairs| ensures !StartsWith(pairs[i], "code" + "=") {
      if StartsWith(pairs[i], "code" + "=") {
        StartsWithLonger(pairs[i], "code", "=");
      }
    }
  }

  lemma StartsWithLonger(s: string, p: string, q: string)
    requires StartsWith(s, p + q)
    ensures StartsWith(s, p)
  {
    assert s[..|p|] == (p + q)[..|p|];
  }

  /** Pieces free of `?` joined with `&` are free of `?`. */
  lemma {:induction false} QueryFree(pairs: seq<string>)
    requires forall i :: 0 <= i < |pairs| ==> '?' !in pairs[i]
    ensures '?' !in Join(pairs, "&")
  {
    if |pairs| > 1 {
      QueryFree(pairs[1..]);
      assert forall c :: c in pairs[0] + "&" + Join(pairs[1..], "&") ==>
        c in pairs[0] || c == '&' || c in Join(pairs[1..], "&");
    }
  }

  /** The address of a refused consent, as a path and two pairs. */
  lemma RefusalAddress()
    ensures "/callback" + "?" + Join(["error=access_denied", "state=googlecode"], "&") ==
            "/callback?error=access_denied&state=googlecode"
  {
    var pairs := ["error=access_denied", "state=googlecode"];
    assert pairs[1..] == ["state=googlecode"];
    assert Join(pairs, "&") == "error=access_denied&state=googlecode";
  }

  lemma RefusalContainsCode()
    ensures Contains("/callback?error=access_denied&state=googlecode", "code")
  {
    var href := "/callback?error=access_denied&state=googlecode";
    assert OccursAt(href, "code", |href| - 4);
  }

  lemma RefusalHasNoCodePair()
    ensures var pairs := ["error=access_denied", "state=googlecode"];
      forall i :: 0 <= i < |pairs| ==> '&' !in pairs[i] && '?' !in pairs[i] && !StartsWith(pairs[i], "code")
  {
    NotStartsWith("error=access_denied", "code");
    NotStartsWith("state=googlecode", "code");
  }

  /** The input that shows it: the address of a refused consent. */
  lemma RefusalFails()
    ensures OnInit("/callback?error=access_denied&state=googlecode") == TypeError
    ensures OnInitChecked("/callback?error=access_denied&state=googlecode") == Stay
  {
    RefusalAddress();
    RefusalContainsCode();
    RefusalHasNoCodePair();
    NoCodePairFails("/callback", ["error=access_denied", "state=googlecode"]);
    NoCodePairStays("/callback", ["error=access_denied", "state=googlecode"]);
  }

  /** `ngOnInit` that acts on a `code` pair only. */
  function OnInitChecked(href: string): (r: CallbackAction)
    ensures r != TypeError
    ensures r.FinishDriveAccess? <==> GetValueOfKeyFromUrl(href, "code").Some?
    ensures r.FinishDriveAccess? ==> Some(r.code) == GetValueOfKeyFromUrl(href, "code") && r.redirect == RedirectUri(href)
  {
    match GetValueOfKeyFromUrl(href, "code")
    case None => Stay
    case Some(code) => FinishDriveAccess(code, RedirectUri(href))
  }
}
