/** The few JavaScript string operations the client relies on: truthiness of an
    optional string, `String.prototype.trim`, and the `split(':')[0].substring(1)`
    idiom that extracts the localpart of a Matrix user id. */
module JsText {
  import opened Wrappers

  /** A string-valued JSON field is truthy when it is present and non-empty. */
  predicate Truthy(o: Option<string>) {
    o.Some? && o.value != ""
  }

  /** The characters `trim` strips: ECMAScript WhiteSpace and LineTerminator. */
  predicate IsSpace(c: char) {
    || c == '\t' || c == '\n' || c == '\U{000B}' || c == '\U{000C}' || c == '\r'
    || c == ' ' || c == '\U{00A0}' || c == '\U{1680}'
    || ('\U{2000}' <= c <= '\U{200A}')
    || c == '\U{2028}' || c == '\U{2029}' || c == '\U{202F}' || c == '\U{205F}'
    || c == '\U{3000}' || c == '\U{FEFF}'
  }

  predicate IsBlank(s: string) {
    forall i :: 0 <= i < |s| ==> IsSpace(s[i])
  }

  /** The first position at or after `i` that is not whitespace, or `|s|`. */
  function SkipSpaces(s: string, i: nat): (k: nat)
    requires i <= |s|
    ensures i <= k <= |s|
    ensures forall j :: i <= j < k ==> IsSpace(s[j])
    ensures k < |s| ==> !IsSpace(s[k])
    decreases |s| - i
  {
    if i == |s| || !IsSpace(s[i]) then i else SkipSpaces(s, i + 1)
  }

  /** The end of the text before `j` once trailing whitespace is skipped. */
  function SkipSpacesBack(s: string, j: nat): (k: nat)
    requires j <= |s|
    ensures k <= j
    ensures forall x :: k <= x < j ==> IsSpace(s[x])
    ensures k > 0 ==> !IsSpace(s[k - 1])
  {
    if j == 0 || !IsSpace(s[j - 1]) then j else SkipSpacesBack(s, j - 1)
  }

  /** `s.trim()`: the slice of `s` left after removing leading and trailing whitespace. */
  function Trim(s: string): (r: string)
    ensures |r| <= |s|
    ensures IsBlank(s) <==> r == ""
    ensures r != "" ==> !IsSpace(r[0]) && !IsSpace(r[|r| - 1])
    ensures exists i :: 0 <= i <= |s| - |r| && r == s[i..i + |r|] && IsBlank(s[..i]) && IsBlank(s[i + |r|..])
  {
    var a := SkipSpaces(s, 0);
    if a == |s| then
      assert IsBlank(s[..0]) && IsBlank(s[0..]);
      ""
    else
      var e := SkipSpacesBack(s, |s|);
      assert a < e;
      var r := s[a..e];
      assert r == s[a..a + |r|] && IsBlank(s[..a]) && IsBlank(s[a + |r|..]);
      r
  }

  /** Trimming twice is trimming once. */
  lemma TrimIdempotent(s: string)
    ensures Trim(Trim(s)) == Trim(s)
  {
  }

  /** The text before the first `:` of `s`, i.e. `s.split(':')[0]`. */
  function BeforeColon(s: string): (p: string)
    ensures |p| <= |s| && p == s[..|p|]
    ensures ':' !in p
    ensures |p| < |s| ==> s[|p|] == ':'
  {
    if |s| == 0 || s[0] == ':' then "" else [s[0]] + BeforeColon(s[1..])
  }

  /** `userId.split(':')[0].substring(1)`: for a Matrix id `@name:server` this is `name`.
      `substring(1)` of the empty string is the empty string. */
  function Localpart(userId: string): (r: string)
    ensures ':' !in r
    ensures |userId| == 0 || userId[0] == ':' ==> r == ""
    ensures |userId| > 0 && userId[0] != ':' ==>
              1 + |r| <= |userId| && r == userId[1..1 + |r|]
              && (1 + |r| == |userId| || userId[1 + |r|] == ':')
  {
    var p := BeforeColon(userId);
    if |p| == 0 then "" else p[1..]
  }

  /** The text before the first `:` of `p + ":" + q`, when `p` holds no colon, is `p`. */
  lemma {:induction false} BeforeColonOfSplit(p: string, q: string)
    requires ':' !in p
    ensures BeforeColon(p + ":" + q) == p
  {
    if |p| == 0 {
      assert (p + ":" + q)[0] == ':';
    } else {
      assert (p + ":" + q)[1..] == p[1..] + ":" + q;
      BeforeColonOfSplit(p[1..], q);
      assert [p[0]] + p[1..] == p;
    }
  }

  /** The localpart of `@name:server` is `name`. */
  lemma LocalpartOfUserId(name: string, server: string)
    requires ':' !in name
    ensures Localpart("@" + name + ":" + server) == name
  {
    assert "@" + name + ":" + server == ("@" + name) + ":" + server;
    BeforeColonOfSplit("@" + name, server);
    assert ("@" + name)[1..] == name;
  }
}
