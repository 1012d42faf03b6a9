/**
 * String utilities of the `calibre` package: file-name sanitising,
 * collapsing of redundant slashes in URLs, cleaning of the proxy map and
 * the escaping step of preparing text for XML.
 */
module CalibreUtils {
  import opened Wrappers
  import opened Strings
  import opened PosixPath

  // ---------------------------------------------------------------- sanitize_file_name

  /** The characters no file name may contain on Windows, macOS or Linux. */
  predicate IsInvalidFileChar(c: char) {
    c == '\\' || c == '|' || c == '?' || c == '*' || c == '<' || c == '"' || c == ':' || c == '>'
    || c == '+' || c == '/' || (c as int) < 32
  }

  predicate NoInvalidChars(s: string) {
    forall c :: c in s ==> !IsInvalidFileChar(c)
  }

  /** Each invalid character replaced by the substitute text. */
  function SubstituteInvalid(name: string, substitute: string): (r: string)
    ensures NoInvalidChars(substitute) ==> NoInvalidChars(r)
    ensures forall c :: c in r ==> c in name || c in substitute
  {
    if name == [] then []
    else (if IsInvalidFileChar(name[0]) then substitute else [name[0]]) + SubstituteInvalid(name[1..], substitute)
  }

  /** `re.sub(r'\s', ' ', s)`. */
  function BlankSpaces(s: string): (r: string)
    ensures |r| == |s|
    ensures forall k :: 0 <= k < |s| ==> r[k] == (if IsSpace(s[k]) then ' ' else s[k])
    ensures forall c :: c in r ==> c == ' ' || c in s
  {
    if s == [] then [] else [if IsSpace(s[0]) then ' ' else s[0]] + BlankSpaces(s[1..])
  }

  /** Python's `re.sub(r'^\.+$', '_', base)` on text without line breaks. */
  function DotsToUnderscore(base: string): string {
    if base != [] && AllDots(base) then "_" else base
  }

  /** Windows refuses path components ending in a period or a space. */
  function FixTrailing(s: string): (r: string)
    ensures |r| == |s|
    ensures r != [] ==> r[|r| - 1] != '.' && r[|r| - 1] != ' '
    ensures forall c :: c in r ==> c == '_' || c in s
  {
    if s != [] && (s[|s| - 1] == '.' || s[|s| - 1] == ' ') then s[..|s| - 1] + "_" else s
  }

  /** Names starting with a period are hidden on Unix. */
  function FixLeading(s: string): (r: string)
    ensures |r| == |s|
    ensures r != [] ==> r[0] != '.'
    ensures forall k :: 1 <= k < |s| ==> r[k] == s[k]
    ensures forall c :: c in r ==> c == '_' || c in s
  {
    if StartsWith(s, ".") then "_" + s[1..] else s
  }

  /**
   * `sanitize_file_name(name, substitute)`: a non-empty result never
   * starts with a period and never ends with a period or a space.
   */
  function SanitizeFileName(name: string, substitute: string): (r: string)
    ensures r != [] ==> r[0] != '.' && r[|r| - 1] != '.' && r[|r| - 1] != ' '
  {
    var one := Strip(BlankSpaces(SubstituteInvalid(name, substitute)));
    var parts := SplitExt(one);
    var joined := ReplaceAll(DotsToUnderscore(parts.0), "..", substitute) + parts.1;
    FixEnds(joined)
  }

  /** Both fixes, trailing first: neither end is left as a forbidden character. */
  function FixEnds(s: string): (r: string)
    ensures r != [] ==> r[0] != '.' && r[|r| - 1] != '.' && r[|r| - 1] != ' '
  {
    var t := FixTrailing(s);
    assert |t| >= 2 ==> FixLeading(t)[|t| - 1] == t[|t| - 1];
    FixLeading(t)
  }

  /** With a valid substitute (the default `_` is one), no invalid character survives. */
  lemma SanitizeNoInvalid(name: string, substitute: string)
    requires NoInvalidChars(substitute)
    ensures NoInvalidChars(SanitizeFileName(name, substitute))
  {
    var one := Strip(BlankSpaces(SubstituteInvalid(name, substitute)));
    assert NoInvalidChars(one);
    var parts := SplitExt(one);
    assert NoInvalidChars(parts.0) && NoInvalidChars(parts.1) by {
      assert forall c :: c in parts.0 || c in parts.1 ==> c in one;
    }
    var base := DotsToUnderscore(parts.0);
    assert NoInvalidChars(base);
    var replaced := ReplaceAll(base, "..", substitute);
    forall c | c in replaced ensures !IsInvalidFileChar(c) {
      ReplaceAllFrom(base, "..", substitute, c);
    }
    assert NoInvalidChars(replaced + parts.1);
  }

  /** The default substitute `_` is itself a valid character. */
  lemma DefaultSubstituteValid()
    ensures NoInvalidChars("_")
  {
  }

  /** A name made of periods alone becomes `_`. */
  lemma SanitizeAllDots(name: string, substitute: string)
    requires name != [] && AllDots(name)
    ensures SanitizeFileName(name, substitute) == "_"
  {
    assert SubstituteInvalid(name, substitute) == name by {
      SubstituteValid(name, substitute);
    }
    var b := BlankSpaces(name);
    assert b == name;
    assert Strip(name) == name;
    SplitExtAllDots(name);
    assert DotsToUnderscore(name) == "_";
    assert ReplaceAll("_", "..", substitute) == "_";
  }

  lemma {:induction false} SubstituteValid(name: string, substitute: string)
    requires NoInvalidChars(name)
    ensures SubstituteInvalid(name, substitute) == name
  {
    if name != [] {
      SubstituteValid(name[1..], substitute);
      assert [name[0]] + name[1..] == name;
    }
  }

  // ---------------------------------------------------------------- url_slash_cleaner

  /** The number of `/` at the head of `s`. */
  function SlashRun(s: string): (n: nat)
    ensures n <= |s| && (forall k :: 0 <= k < n ==> s[k] == '/') && (n < |s| ==> s[n] != '/')
  {
    if s == [] || s[0] != '/' then 0 else 1 + SlashRun(s[1..])
  }

  /**
   * `re.sub(r'(?<!:)/{2,}', '/', s)`, scanning from the left: `prev` is the
   * character of the original text just before `s`. A run of two or more
   * slashes not preceded by `:` collapses to one slash.
   */
  function CleanSlashes(s: string, prev: Option<char>): (r: string)
    ensures |r| == 0 <==> |s| == 0
    ensures r != [] ==> (r[0] == '/' <==> s[0] == '/')
    ensures NoStraySlashes(prev, r)
    decreases |s|
  {
    if s == [] then []
    else if |s| >= 2 && s[0] == '/' && s[1] == '/' && prev != Some(':') then
      var n := SlashRun(s);
      var rest := CleanSlashes(s[n..], Some('/'));
      ConsNoStray(prev, '/', rest);
      "/" + rest
    else
      var rest := CleanSlashes(s[1..], Some(s[0]));
      ConsNoStray(prev, s[0], rest);
      [s[0]] + rest
  }

  lemma ConsNoStray(prev: Option<char>, c: char, rest: string)
    requires NoStraySlashes(Some(c), rest)
    requires c == '/' && rest != [] && rest[0] == '/' ==> prev == Some(':')
    ensures NoStraySlashes(prev, [c] + rest)
  {
    var r := [c] + rest;
    forall i | 0 <= i < |r| && DoubleSlashAt(r, i)
      ensures if i == 0 then prev == Some(':') else r[i - 1] == ':'
    {
      if i > 0 {
        assert DoubleSlashAt(rest, i - 1);
      }
    }
  }

  /** Every `//` in `r` comes right after a `:` (`prev` is the character before `r`). */
  predicate NoStraySlashes(prev: Option<char>, r: string) {
    forall i :: 0 <= i < |r| && DoubleSlashAt(r, i) ==> if i == 0 then prev == Some(':') else r[i - 1] == ':'
  }

  predicate DoubleSlashAt(r: string, i: int) {
    0 <= i < |r| - 1 && r[i] == '/' && r[i + 1] == '/'
  }

  /**
   * `url_slash_cleaner(url)`: no `//` is left that does not follow a `:`,
   * and only redundant slashes are removed.
   */
  function UrlSlashCleaner(url: string): (r: string)
    ensures forall i :: 0 <= i < |r| && DoubleSlashAt(r, i) ==> i > 0 && r[i - 1] == ':'
    ensures Squeeze(r) == Squeeze(url) && |r| <= |url|
  {
    CleanSlashesSqueeze(url, None);
    CleanSlashes(url, None)
  }

  /** Every run of slashes squeezed to one: what the text says apart from redundant slashes. */
  function Squeeze(s: string): string
    decreases |s|
  {
    if s == [] then []
    else if |s| >= 2 && s[0] == '/' && s[1] == '/' then Squeeze(s[1..])
    else [s[0]] + Squeeze(s[1..])
  }

  /**
   * Cleaning removes only redundant slashes: every other character, and one
   * slash of every run, is kept in order, and the text never grows.
   */
  lemma {:induction false} CleanSlashesSqueeze(s: string, prev: Option<char>)
    ensures Squeeze(CleanSlashes(s, prev)) == Squeeze(s)
    ensures |CleanSlashes(s, prev)| <= |s|
    decreases |s|
  {
    if s == [] {
    } else if |s| >= 2 && s[0] == '/' && s[1] == '/' && prev != Some(':') {
      var n := SlashRun(s);
      var rest := CleanSlashes(s[n..], Some('/'));
      CleanSlashesSqueeze(s[n..], Some('/'));
      assert CleanSlashes(s, prev) == "/" + rest;
      assert Squeeze("/" + rest) == "/" + Squeeze(rest) by {
        var t := "/" + rest;
        assert t[1..] == rest;
        if |t| >= 2 {
          assert t[1] == rest[0] && s[n] != '/';
        }
      }
      SqueezeRun(s, n - 1);
      var u := s[n - 1..];
      assert u[0] == '/' && u[1..] == s[n..];
      assert |u| >= 2 ==> u[1] == s[n] && s[n] != '/';
    } else {
      var rest := CleanSlashes(s[1..], Some(s[0]));
      CleanSlashesSqueeze(s[1..], Some(s[0]));
      var t := [s[0]] + rest;
      assert CleanSlashes(s, prev) == t;
      assert t[1..] == rest;
      assert |t| >= 2 ==> t[1] == rest[0] && |s| >= 2 && (rest[0] == '/' <==> s[1] == '/');
    }
  }

  /** Slashes each followed by another slash vanish in the squeeze. */
  lemma {:induction false} SqueezeRun(s: string, k: nat)
    requires k < |s| && forall j :: 0 <= j <= k ==> s[j] == '/'
    ensures Squeeze(s) == Squeeze(s[k..])
    decreases k
  {
    if k > 0 {
      assert s[1..][k - 1..] == s[k..];
      SqueezeRun(s[1..], k - 1);
    }
  }

  /** Text with no stray `//` is left alone. */
  lemma {:induction false} CleanSlashesFixed(s: string, prev: Option<char>)
    requires NoStraySlashes(prev, s)
    ensures CleanSlashes(s, prev) == s
    decreases |s|
  {
    if s != [] {
      if |s| >= 2 && s[0] == '/' && s[1] == '/' {
        assert DoubleSlashAt(s, 0);
      }
      assert NoStraySlashes(Some(s[0]), s[1..]) by {
        forall i | 0 <= i < |s[1..]| && DoubleSlashAt(s[1..], i)
          ensures if i == 0 then Some(s[0]) == Some(':') else s[1..][i - 1] == ':'
        {
          assert DoubleSlashAt(s, i + 1);
        }
      }
      CleanSlashesFixed(s[1..], Some(s[0]));
      assert CleanSlashes(s, prev) == [s[0]] + CleanSlashes(s[1..], Some(s[0]));
      assert [s[0]] + s[1..] == s;
    }
  }

  /** `url_slash_cleaner` is idempotent. */
  lemma UrlSlashCleanerIdempotent(url: string)
    ensures UrlSlashCleaner(UrlSlashCleaner(url)) == UrlSlashCleaner(url)
  {
    CleanSlashesFixed(UrlSlashCleaner(url), None);
  }

  // ---------------------------------------------------------------- get_proxies

  /**
   * The rewriting `get_proxies` applies to a value: a leading `key://` is cut,
   * for the `https` key a leading `http://` as well, then one trailing `/`.
   */
  function StripProxy(key: string, proxy: string): (r: string)
    ensures exists a :: 0 <= a <= |proxy| && (proxy[a..] == r || proxy[a..] == r + "/")
  {
    var p1 := if StartsWith(proxy, key + "://") then proxy[|key| + 3..] else proxy;
    assert p1 == proxy[|proxy| - |p1|..];
    var p2 := if key == "https" && StartsWith(p1, "http://") then p1[7..] else p1;
    assert p2 == proxy[|proxy| - |p2|..];
    var p3 := if EndsWith(p2, "/") then p2[..|p2| - 1] else p2;
    assert p2 == p3 || p2 == p3 + "/";
    p3
  }

  /**
   * One entry of the `get_proxies` loop: `None` when the entry is deleted,
   * otherwise the cleaned value written back. An entry is deleted exactly
   * when its value is empty, holds `..`, its key is `auto`, or the rewritten
   * value has four characters or fewer.
   */
  function CleanProxy(key: string, proxy: string): (r: Option<string>)
    ensures r.Some? <==> proxy != [] && !Contains(proxy, "..") && key != "auto" && |StripProxy(key, proxy)| > 4
    ensures r.Some? ==> r.value == StripProxy(key, proxy)
  {
    if proxy == [] || Contains(proxy, "..") || key == "auto" then None
    else
      var p := StripProxy(key, proxy);
      if |p| > 4 then Some(p) else None
  }

  /** Appending a character other than `.` cannot create a `..`. */
  lemma NoDotDotAppend(s: string, c: char)
    requires c != '.' && !Contains(s, "..")
    ensures !Contains(s + [c], "..")
  {
    forall i | 0 <= i <= |s + [c]| ensures !StartsWith((s + [c])[i..], "..") {
      if i + 2 <= |s| {
        assert (s + [c])[i..][..2] == s[i..][..2];
      } else if i + 2 == |s| + 1 {
        assert (s + [c])[i..][1] == c;
      }
    }
  }

  /** The rewriting of `key://host`: the scheme is cut and nothing else. */
  lemma StripProxyScheme(key: string, h: string)
    requires !EndsWith(h, "/") && !(key == "https" && StartsWith(h, "http://"))
    ensures StripProxy(key, key + "://" + h) == h
  {
    var p := key + "://" + h;
    assert p[..|key| + 3] == key + "://";
    assert p[|key| + 3..] == h;
  }

  /** The rewriting of `key://host/`: the scheme and the trailing `/` are cut. */
  lemma StripProxySchemeSlash(key: string, h: string)
    requires !EndsWith(h, "/") && !(key == "https" && StartsWith(h + "/", "http://"))
    ensures StripProxy(key, key + "://" + h + "/") == h
  {
    var q := key + "://" + h + "/";
    assert q[..|key| + 3] == key + "://";
    assert q[|key| + 3..] == h + "/";
    assert EndsWith(h + "/", "/");
    assert (h + "/")[..|h|] == h;
  }

  /**
   * A value written as `key://host`, with or without one trailing `/`, is
   * kept as `host` when the host is longer than four characters, holds no
   * `..` and does not end in `/` (and, for `https`, `host/` does not start
   * with `http://`).
   */
  lemma CleanProxyKeepsHost(key: string, h: string)
    requires key != "auto" && |h| > 4 && !EndsWith(h, "/")
    requires !Contains(key + "://" + h, "..")
    requires !(key == "https" && StartsWith(h + "/", "http://"))
    ensures CleanProxy(key, key + "://" + h) == Some(h)
    ensures CleanProxy(key, key + "://" + h + "/") == Some(h)
  {
    StripProxyScheme(key, h);
    StripProxySchemeSlash(key, h);
    NoDotDotAppend(key + "://" + h, '/');
  }

  /** A bare `host` value, without any scheme, is kept unchanged. */
  lemma CleanProxyKeepsBare(key: string, h: string)
    requires key != "auto" && |h| > 4 && !EndsWith(h, "/") && !Contains(h, "..")
    requires !StartsWith(h, key + "://") && !(key == "https" && StartsWith(h, "http://"))
    ensures CleanProxy(key, h) == Some(h)
  {
  }

  /** For the `https` key a plain `http://host` value is kept as `host`. */
  lemma CleanProxyHttpsOverHttp(h: string)
    requires |h| > 4 && !EndsWith(h, "/") && !Contains("http://" + h, "..")
    ensures CleanProxy("https", "http://" + h) == Some(h)
  {
    var p := "http://" + h;
    assert p[4] == ':';
    assert !StartsWith(p, "https" + "://");
    assert StartsWith(p, "http://") && p[7..] == h;
  }

  /** Values of four characters or fewer are always deleted, whatever the key. */
  lemma CleanProxyShortDropped(key: string, proxy: string)
    requires |proxy| <= 4
    ensures CleanProxy(key, proxy).None?
  {
    var a :| 0 <= a <= |proxy| && (proxy[a..] == StripProxy(key, proxy) || proxy[a..] == StripProxy(key, proxy) + "/");
  }

  /**
   * A kept proxy is a slice of the original value: at most a scheme prefix
   * and one trailing `/` are cut, it is longer than four characters and
   * holds no `..`; the `auto` key is never kept.
   */
  lemma CleanProxyKept(key: string, proxy: string)
    requires CleanProxy(key, proxy).Some?
    ensures var v := CleanProxy(key, proxy).value;
      key != "auto" && |v| > 4 && !Contains(v, "..")
      && exists a, b :: 0 <= a <= b <= |proxy| && b + 1 >= |proxy| && proxy[a..b] == v
  {
    var v := CleanProxy(key, proxy).value;
    var a :| 0 <= a <= |proxy| && (proxy[a..] == v || proxy[a..] == v + "/");
    var b := a + |v|;
    assert v == proxy[a..b];
    if Contains(v, "..") {
      ContainsSlice(proxy, a, b, "..");
      assert false;
    }
  }

  /** The proxy map `get_proxies` returns for the map the system reports. */
  function CleanedProxies(proxies: map<string, string>): map<string, string> {
    map k | k in proxies && CleanProxy(k, proxies[k]).Some? :: CleanProxy(k, proxies[k]).value
  }

  /** The cleanup loop of `get_proxies`: each entry is deleted or rewritten in place. */
  method GetProxies(proxies: map<string, string>) returns (r: map<string, string>)
    ensures r == CleanedProxies(proxies)
  {
    r := proxies;
    var remaining := proxies.Keys;
    while remaining != {}
      invariant remaining <= proxies.Keys && r.Keys <= proxies.Keys
      invariant forall k :: k in remaining ==> k in r && r[k] == proxies[k]
      invariant forall k :: k in proxies && k !in remaining ==>
        (k in r <==> CleanProxy(k, proxies[k]).Some?) && (k in r ==> r[k] == CleanProxy(k, proxies[k]).value)
      decreases |remaining|
    {
      var key :| key in remaining;
      var cleaned := CleanProxy(key, r[key]);
      if cleaned.Some? {
        r := r[key := cleaned.value];
      } else {
        r := r - {key};
      }
      remaining := remaining - {key};
    }
  }

  // ---------------------------------------------------------------- prepare_string_for_xml

  /**
   * The escaping step of `prepare_string_for_xml`: `&`, `<`, `>` and, for
   * attribute values, `"` and `'` replaced by entities, one `replace` at a
   * time in that order.
   */
  function EscapeForXml(raw: string, attribute: bool): (r: string)
    ensures '<' !in r && '>' !in r
    ensures attribute ==> '"' !in r && '\'' !in r
  {
    var a := ReplaceAll(raw, "&", "&amp;");
    var b := ReplaceAll(a, "<", "&lt;");
    ReplaceAllRemoves(a, '<', "&lt;");
    var c := ReplaceAll(b, ">", "&gt;");
    ReplaceAllRemoves(b, '>', "&gt;");
    ReplaceAllAbsent(b, ">", "&gt;", '<');
    if attribute then
      var d := ReplaceAll(c, "\"", "&quot;");
      ReplaceAllRemoves(c, '"', "&quot;");
      ReplaceAllAbsent(c, "\"", "&quot;", '<');
      ReplaceAllAbsent(c, "\"", "&quot;", '>');
      var e := ReplaceAll(d, "'", "&apos;");
      ReplaceAllRemoves(d, '\'', "&apos;");
      ReplaceAllAbsent(d, "'", "&apos;", '<');
      ReplaceAllAbsent(d, "'", "&apos;", '>');
      ReplaceAllAbsent(d, "'", "&apos;", '"');
      e
    else c
  }

  /**
   * `prepare_string_for_xml(raw, attribute)`; the entity replacement that
   * runs first is a native extension, taken here as a parameter.
   */
  function PrepareStringForXml(replaceEntities: string -> string, raw: string, attribute: bool): (r: string)
    ensures '<' !in r && '>' !in r
    ensures attribute ==> '"' !in r && '\'' !in r
  {
    EscapeForXml(replaceEntities(raw), attribute)
  }

  /** The entity one character becomes. */
  function EscapeChar(c: char, attribute: bool): string {
    if c == '&' then "&amp;"
    else if c == '<' then "&lt;"
    else if c == '>' then "&gt;"
    else if attribute && c == '"' then "&quot;"
    else if attribute && c == '\'' then "&apos;"
    else [c]
  }

  function EscapeEach(s: string, attribute: bool): string {
    if s == [] then [] else EscapeChar(s[0], attribute) + EscapeEach(s[1..], attribute)
  }

  /** An XML reader's decoding of the five predefined entities, left to right. */
  function Unescape(s: string): string
    decreases |s|
  {
    if s == [] then []
    else if StartsWith(s, "&amp;") then "&" + Unescape(s[5..])
    else if StartsWith(s, "&lt;") then "<" + Unescape(s[4..])
    else if StartsWith(s, "&gt;") then ">" + Unescape(s[4..])
    else if StartsWith(s, "&quot;") then "\"" + Unescape(s[6..])
    else if StartsWith(s, "&apos;") then "'" + Unescape(s[6..])
    else [s[0]] + Unescape(s[1..])
  }

  /** The escaping chain is the same as escaping each character on its own. */
  lemma {:induction false} EscapeForXmlEach(s: string, attribute: bool)
    ensures EscapeForXml(s, attribute) == EscapeEach(s, attribute)
    decreases |s|
  {
    if s != [] {
      var c := s[0];
      var t := s[1..];
      assert s == [c] + t;
      EscapeForXmlEach(t, attribute);
      ChainAppend([c], t, attribute);
      EscapeOneChar(c, attribute);
    }
  }

  lemma ChainAppend(u: string, t: string, attribute: bool)
    ensures EscapeForXml(u + t, attribute) == EscapeForXml(u, attribute) + EscapeForXml(t, attribute)
  {
    ReplaceOneAppend(u, t, '&', "&amp;");
    var a1, a2 := ReplaceAll(u, "&", "&amp;"), ReplaceAll(t, "&", "&amp;");
    ReplaceOneAppend(a1, a2, '<', "&lt;");
    var b1, b2 := ReplaceAll(a1, "<", "&lt;"), ReplaceAll(a2, "<", "&lt;");
    ReplaceOneAppend(b1, b2, '>', "&gt;");
    var c1, c2 := ReplaceAll(b1, ">", "&gt;"), ReplaceAll(b2, ">", "&gt;");
    ReplaceOneAppend(c1, c2, '"', "&quot;");
    var d1, d2 := ReplaceAll(c1, "\"", "&quot;"), ReplaceAll(c2, "\"", "&quot;");
    ReplaceOneAppend(d1, d2, '\'', "&apos;");
  }

  lemma EscapeOneChar(c: char, attribute: bool)
    ensures EscapeForXml([c], attribute) == EscapeChar(c, attribute)
  {
    ReplaceSingle(c, '&', "&amp;");
    if c == '&' {
      EscapedStays("&amp;", attribute);
    } else {
      ReplaceSingle(c, '<', "&lt;");
      if c == '<' {
        EscapedStays("&lt;", attribute);
      } else {
        ReplaceSingle(c, '>', "&gt;");
        if c == '>' {
          EscapedStays("&gt;", attribute);
        } else if attribute {
          ReplaceSingle(c, '"', "&quot;");
          if c == '"' {
            ReplaceOneAbsent("&quot;", '\'', "&apos;");
          } else {
            ReplaceSingle(c, '\'', "&apos;");
          }
        }
      }
    }
  }

  /** A one-character text is replaced exactly when it is the pattern. */
  lemma ReplaceSingle(c: char, p: char, rep: string)
    ensures ReplaceAll([c], [p], rep) == if c == p then rep else [c]
  {
    var s := [c];
    assert s[1..] == [] && s[..1] == s;
  }

  /** The later replacements leave an entity alone: it holds none of `<`, `>`, `"`, `'`. */
  lemma EscapedStays(e: string, attribute: bool)
    requires '<' !in e && '>' !in e && '"' !in e && '\'' !in e
    ensures ReplaceAll(e, "<", "&lt;") == e && ReplaceAll(e, ">", "&gt;") == e
    ensures attribute ==> ReplaceAll(e, "\"", "&quot;") == e && ReplaceAll(e, "'", "&apos;") == e
  {
    ReplaceOneAbsent(e, '<', "&lt;");
    ReplaceOneAbsent(e, '>', "&gt;");
    ReplaceOneAbsent(e, '"', "&quot;");
    ReplaceOneAbsent(e, '\'', "&apos;");
  }

  lemma UnescapeAfter(c: char, attribute: bool, u: string)
    ensures Unescape(EscapeChar(c, attribute) + u) == [c] + Unescape(u)
  {
    var e := EscapeChar(c, attribute);
    var s := e + u;
    assert s[..|e|] == e && s[|e|..] == u;
    if c == '&' {
      assert StartsWith(s, "&amp;");
    } else if c == '<' {
      assert s[1] == 'l' && !StartsWith(s, "&amp;");
      assert StartsWith(s, "&lt;");
    } else if c == '>' {
      assert s[1] == 'g' && !StartsWith(s, "&amp;") && !StartsWith(s, "&lt;");
      assert StartsWith(s, "&gt;");
    } else if attribute && c == '"' {
      assert s[1] == 'q' && !StartsWith(s, "&amp;") && !StartsWith(s, "&lt;") && !StartsWith(s, "&gt;");
      assert StartsWith(s, "&quot;");
    } else if attribute && c == '\'' {
      assert s[1] == 'a' && s[2] == 'p' && !StartsWith(s, "&amp;") && !StartsWith(s, "&lt;");
      assert !StartsWith(s, "&gt;") && !StartsWith(s, "&quot;");
      assert StartsWith(s, "&apos;");
    } else {
      assert e == [c] && s[0] == c && c != '&';
      assert !StartsWith(s, "&amp;") && !StartsWith(s, "&lt;") && !StartsWith(s, "&gt;");
      assert !StartsWith(s, "&quot;") && !StartsWith(s, "&apos;");
    }
  }

  /** Decoding the escaped text gives back the text: the escaping loses nothing. */
  lemma {:induction false} UnescapeEscape(s: string, attribute: bool)
    ensures Unescape(EscapeForXml(s, attribute)) == s
    decreases |s|
  {
    EscapeForXmlEach(s, attribute);
    UnescapeEach(s, attribute);
  }

  lemma {:induction false} UnescapeEach(s: string, attribute: bool)
    ensures Unescape(EscapeEach(s, attribute)) == s
    decreases |s|
  {
    if s != [] {
      UnescapeEach(s[1..], attribute);
      UnescapeAfter(s[0], attribute, EscapeEach(s[1..], attribute));
      assert [s[0]] + s[1..] == s;
    }
  }
}
