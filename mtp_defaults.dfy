/**
 * Default settings for MTP devices: a table of rules, each a set of tests on
 * the device's vendor and product ids with the settings to use when every
 * test passes. The first passing rule wins. On Windows the ids are read from
 * the device path (`…vid_XXXX&pid_YYYY…`).
 */
module MtpDefaults {
  import opened Wrappers
  import opened Strings

  /** A JSON-like settings value. */
  datatype Value = Str(s: string) | Bool(b: bool) | Null | List(items: seq<Value>) | Dict(entries: map<string, Value>)

  type Settings = map<string, Value>

  /** A rule: its tests (`vendor` and/or `product`, other keys test nothing) and its settings. */
  datatype Rule = Rule(tests: map<string, int>, settings: Settings)

  /** What identifies the device: its path on Windows, its USB ids elsewhere. */
  datatype Device = Device(path: string, vendorId: int, productId: int)

  function Strs(xs: seq<string>): Value
    decreases |xs|
  {
    if xs == [] then List([]) else List([Str(xs[0])] + Strs(xs[1..]).items)
  }

  const AmazonSettings: Settings := map[
    "format_map" := Strs(["azw3", "mobi", "azw", "azw1", "azw4", "kfx", "pdf"]),
    "send_to" := Strs(["documents", "kindle", "books"]),
    "apnx" := Dict(map["send" := Bool(true), "method" := Str("fast"),
                       "custom_column_page_count" := Null, "custom_column_method" := Null])]

  const NookSettings: Settings := map[
    "format_map" := Strs(["epub", "pdf"]),
    "calibre_file_paths" := Dict(map["metadata" := Str("NOOK/metadata.calibre"),
                                     "driveinfo" := Str("NOOK/driveinfo.calibre")]),
    "send_to" := Strs(["NOOK/My Books", "NOOK/My Files", "NOOK", "Calibre_Companion", "Books",
                       "eBooks/import", "eBooks", "sdcard/ebooks"])]

  const SupernoteSettings: Settings := map[
    "calibre_file_paths" := Dict(map["metadata" := Str("Document/metadata.calibre"),
                                     "driveinfo" := Str("Document/driveinfo.calibre")]),
    "send_to" := Strs(["Document", "Documents"])]

  /** The rule table, in order. */
  const DefaultRules: seq<Rule> := [
    Rule(map["vendor" := 0x1949], AmazonSettings),
    Rule(map["vendor" := 0x2080], NookSettings),
    Rule(map["vendor" := 0x2207, "product" := 0x0031], SupernoteSettings),
    Rule(map["vendor" := 0x2207, "product" := 0x0011], SupernoteSettings),
    Rule(map["vendor" := 0x2207, "product" := 0x0007], SupernoteSettings),
    Rule(map["vendor" := 0x2207, "product" := 0x0017], SupernoteSettings)]

  /** Every test of the rule passes: a `vendor` test against `vid`, a `product` test against `pid`. */
  predicate Matches(tests: map<string, int>, vid: int, pid: int) {
    ("vendor" in tests ==> tests["vendor"] == vid) && ("product" in tests ==> tests["product"] == pid)
  }

  /** The index of the first rule whose tests all pass, or `|rules|`. */
  function FirstMatch(rules: seq<Rule>, vid: int, pid: int): (i: nat)
    ensures i <= |rules|
    ensures i < |rules| ==> Matches(rules[i].tests, vid, pid)
    ensures forall j :: 0 <= j < i ==> !Matches(rules[j].tests, vid, pid)
    decreases |rules|
  {
    if rules == [] then 0
    else if Matches(rules[0].tests, vid, pid) then 0
    else 1 + FirstMatch(rules[1..], vid, pid)
  }

  // ---------------------------------------------------------------- Windows device paths

  /** `c` matches the lower-case letter `l` under `re.IGNORECASE` (which also folds `İ` and `ı` onto `i`). */
  predicate SameLetter(c: char, l: char) {
    LowerChar(c) == l || (l == 'i' && (c == '\U{0130}' || c == '\U{0131}'))
  }

  /** `s` starts with the lower-case literal `lit`, ignoring case. */
  predicate StartsWithIgnoringCase(s: string, lit: string) {
    |lit| <= |s| && forall k :: 0 <= k < |lit| ==> SameLetter(s[k], lit[k])
  }

  /** The length of the run of hexadecimal digits at the start of `s`. */
  function HexRun(s: string): (n: nat)
    ensures n <= |s|
    ensures forall k :: 0 <= k < n ==> IsHexDigit(s[k])
    ensures n < |s| ==> !IsHexDigit(s[n])
    decreases |s|
  {
    if s != [] && IsHexDigit(s[0]) then 1 + HexRun(s[1..]) else 0
  }

  /** `int(h, 16)` for a run of hexadecimal digits. */
  function HexValue(h: string): nat
    requires forall k :: 0 <= k < |h| ==> IsHexDigit(h[k])
    decreases |h|
  {
    if h == [] then 0 else HexValue(h[..|h| - 1]) * 16 + HexDigitValue(h[|h| - 1])
  }

  /** The ids matched by `vid_([0-9a-f]+)&pid_([0-9a-f]+)` (case-insensitive) at the start of `s`. */
  function MatchHere(s: string): Option<(int, int)> {
    if StartsWithIgnoringCase(s, "vid_") then MatchVendor(s[4..]) else None
  }

  /** The rest of the pattern after `vid_`: the vendor run, `&pid_` and the product run. */
  function MatchVendor(a: string): Option<(int, int)> {
    var n := HexRun(a);
    if n == 0 || !StartsWithIgnoringCase(a[n..], "&pid_") then None
    else MatchProduct(HexValue(a[..n]), a[n + 5..])
  }

  /** The product run after `&pid_`. */
  function MatchProduct(vid: int, b: string): Option<(int, int)> {
    var m := HexRun(b);
    if m == 0 then None else Some((vid, HexValue(b[..m])))
  }

  /** `re.search`: the leftmost match. */
  function SearchIds(s: string): Option<(int, int)>
    decreases |s|
  {
    if s == [] then None
    else match MatchHere(s)
      case Some(ids) => Some(ids)
      case None => SearchIds(s[1..])
  }

  /** The ids of a device: parsed from the path on Windows (0xffff each when absent), else its USB ids. */
  function DeviceIds(device: Device, isWindows: bool): (int, int) {
    if isWindows then
      match SearchIds(device.path)
      case Some(ids) => ids
      case None => (0xffff, 0xffff)
    else (device.vendorId, device.productId)
  }

  /** `DeviceDefaults.__call__`: the settings of the first matching rule (`{}` if none), with the ids used. */
  function DefaultsFor(rules: seq<Rule>, device: Device, isWindows: bool): (r: (Settings, int, int))
    ensures (r.1, r.2) == DeviceIds(device, isWindows)
  {
    var (vid, pid) := DeviceIds(device, isWindows);
    var i := FirstMatch(rules, vid, pid);
    (if i < |rules| then rules[i].settings else map[], vid, pid)
  }

  // ---------------------------------------------------------------- properties

  /** The settings are those of the first rule, in table order, whose every test passes; `{}` when none does. */
  lemma DefaultsFirstRule(rules: seq<Rule>, device: Device, isWindows: bool, i: nat)
    requires i < |rules|
    requires var (vid, pid) := DeviceIds(device, isWindows);
             Matches(rules[i].tests, vid, pid) && forall j :: 0 <= j < i ==> !Matches(rules[j].tests, vid, pid)
    ensures DefaultsFor(rules, device, isWindows).0 == rules[i].settings
  {
  }

  /** With no passing rule the settings are empty. */
  lemma DefaultsNoRule(rules: seq<Rule>, device: Device, isWindows: bool)
    requires var (vid, pid) := DeviceIds(device, isWindows);
             forall j :: 0 <= j < |rules| ==> !Matches(rules[j].tests, vid, pid)
    ensures DefaultsFor(rules, device, isWindows).0 == map[]
  {
  }

  /** A rule that tests only the vendor passes for every product id. */
  lemma VendorRuleAnyProduct(vendor: int, pid: int, pid': int)
    ensures Matches(map["vendor" := vendor], vendor, pid) && Matches(map["vendor" := vendor], vendor, pid')
  {
  }

  /** Every Amazon device gets the Amazon settings, whatever its product id. */
  lemma AmazonDevices(device: Device, pid: int)
    ensures DefaultsFor(DefaultRules, Device(device.path, 0x1949, pid), false).0 == AmazonSettings
  {
    var d := Device(device.path, 0x1949, pid);
    assert DeviceIds(d, false) == (0x1949, pid);
    assert Matches(DefaultRules[0].tests, 0x1949, pid);
    DefaultsFirstRule(DefaultRules, d, false, 0);
  }

  /** A Supernote with an unknown product id gets no settings. */
  lemma UnknownSupernote(pid: int)
    requires pid !in {0x0031, 0x0011, 0x0007, 0x0017}
    ensures DefaultsFor(DefaultRules, Device([], 0x2207, pid), false).0 == map[]
  {
    assert "vendor" != "product" by { assert "vendor"[0] != "product"[0]; }
    forall j | 0 <= j < |DefaultRules| ensures !Matches(DefaultRules[j].tests, 0x2207, pid) {
      var tests := DefaultRules[j].tests;
      assert "vendor" in tests;
      if j >= 2 {
        assert "product" in tests && tests["product"] != pid;
      }
    }
    DefaultsNoRule(DefaultRules, Device([], 0x2207, pid), false);
  }

  /** A path without the pattern gives 0xffff for both ids. */
  lemma NoPatternDefaults(path: string)
    requires forall i :: 0 <= i <= |path| ==> MatchHere(path[i..]).None?
    ensures DeviceIds(Device(path, 0, 0), true) == (0xffff, 0xffff)
  {
    NoMatchSearch(path);
  }

  lemma {:induction false} NoMatchSearch(s: string)
    requires forall i :: 0 <= i <= |s| ==> MatchHere(s[i..]).None?
    ensures SearchIds(s).None?
    decreases |s|
  {
    if s != [] {
      assert s[0..] == s;
      assert forall i :: 0 <= i <= |s[1..]| ==> s[1..][i..] == s[i + 1..];
      NoMatchSearch(s[1..]);
    }
  }

  /** Text that starts with no `v` (in any case) cannot hold a match before its end. */
  lemma {:induction false} SearchSkipsPrefix(pre: string, rest: string)
    requires forall k :: 0 <= k < |pre| ==> !SameLetter(pre[k], 'v')
    ensures SearchIds(pre + rest) == SearchIds(rest)
    decreases |pre|
  {
    if pre != [] {
      var s := pre + rest;
      assert !StartsWithIgnoringCase(s, "vid_") by { assert s[0] == pre[0]; }
      assert s[1..] == pre[1..] + rest;
      SearchSkipsPrefix(pre[1..], rest);
    } else {
      assert pre + rest == rest;
    }
  }

  /**
   * On Windows, a path `pre + "vid_" + h1 + "&pid_" + h2 + rest` yields the
   * values of the two hexadecimal runs, when `pre` holds no `v` and `rest`
   * does not continue the second run.
   */
  lemma WindowsIds(pre: string, h1: string, h2: string, rest: string)
    requires forall k :: 0 <= k < |pre| ==> !SameLetter(pre[k], 'v')
    requires h1 != [] && forall k :: 0 <= k < |h1| ==> IsHexDigit(h1[k])
    requires h2 != [] && forall k :: 0 <= k < |h2| ==> IsHexDigit(h2[k])
    requires rest == [] || !IsHexDigit(rest[0])
    ensures DeviceIds(Device(pre + "vid_" + h1 + "&pid_" + h2 + rest, 0, 0), true) == (HexValue(h1), HexValue(h2))
  {
    var tail := "vid_" + (h1 + ("&pid_" + (h2 + rest)));
    PathShape(pre, h1, h2, rest);
    SearchSkipsPrefix(pre, tail);
    MatchHereOf(h1, h2, rest);
    assert SearchIds(tail) == Some((HexValue(h1), HexValue(h2)));
  }

  lemma PathShape(pre: string, h1: string, h2: string, rest: string)
    ensures pre + "vid_" + h1 + "&pid_" + h2 + rest == pre + ("vid_" + (h1 + ("&pid_" + (h2 + rest))))
  {
    var p := "&pid_";
    var v := "vid_";
    calc {
      pre + v + h1 + p + h2 + rest;
      (pre + v + h1 + p) + (h2 + rest);
      (pre + v + h1) + (p + (h2 + rest));
      (pre + v) + (h1 + (p + (h2 + rest)));
      pre + (v + (h1 + (p + (h2 + rest))));
    }
  }

  /** The pattern at the start of the text yields the values of its two hexadecimal runs. */
  lemma MatchHereOf(h1: string, h2: string, rest: string)
    requires h1 != [] && forall k :: 0 <= k < |h1| ==> IsHexDigit(h1[k])
    requires h2 != [] && forall k :: 0 <= k < |h2| ==> IsHexDigit(h2[k])
    requires rest == [] || !IsHexDigit(rest[0])
    ensures MatchHere("vid_" + (h1 + ("&pid_" + (h2 + rest)))) == Some((HexValue(h1), HexValue(h2)))
  {
    var a := h1 + ("&pid_" + (h2 + rest));
    VidLiteral(a);
    MatchVendorOf(h1, h2, rest);
  }

  lemma MatchVendorOf(h1: string, h2: string, rest: string)
    requires h1 != [] && forall k :: 0 <= k < |h1| ==> IsHexDigit(h1[k])
    requires h2 != [] && forall k :: 0 <= k < |h2| ==> IsHexDigit(h2[k])
    requires rest == [] || !IsHexDigit(rest[0])
    ensures MatchVendor(h1 + ("&pid_" + (h2 + rest))) == Some((HexValue(h1), HexValue(h2)))
  {
    var t := h2 + rest;
    var c := "&pid_" + t;
    PidLiteral(t);
    HexRunOf(h1, c);
    var a := h1 + c;
    assert a[..|h1|] == h1;
    assert a[|h1|..] == c;
    assert a[|h1| + 5..] == t;
    MatchProductOf(HexValue(h1), h2, rest);
  }

  /** `vid_` followed by anything starts with `vid_`, ignoring case. */
  lemma VidLiteral(t: string)
    ensures StartsWithIgnoringCase("vid_" + t, "vid_") && ("vid_" + t)[4..] == t
  {
    var s := "vid_" + t;
    assert s[0] == 'v' && s[1] == 'i' && s[2] == 'd' && s[3] == '_';
    assert SameLetter(s[0], 'v') && SameLetter(s[1], 'i') && SameLetter(s[2], 'd') && SameLetter(s[3], '_');
  }

  /** `&pid_` followed by anything starts with `&pid_`, ignoring case, and not with a hexadecimal digit. */
  lemma PidLiteral(t: string)
    ensures StartsWithIgnoringCase("&pid_" + t, "&pid_") && ("&pid_" + t)[5..] == t
    ensures !IsHexDigit(("&pid_" + t)[0])
  {
    var s := "&pid_" + t;
    assert s[0] == '&' && s[1] == 'p' && s[2] == 'i' && s[3] == 'd' && s[4] == '_';
    assert SameLetter(s[0], '&') && SameLetter(s[1], 'p') && SameLetter(s[2], 'i');
    assert SameLetter(s[3], 'd') && SameLetter(s[4], '_');
  }

  lemma MatchProductOf(vid: int, h2: string, rest: string)
    requires h2 != [] && forall k :: 0 <= k < |h2| ==> IsHexDigit(h2[k])
    requires rest == [] || !IsHexDigit(rest[0])
    ensures MatchProduct(vid, h2 + rest) == Some((vid, HexValue(h2)))
  {
    HexRunOf(h2, rest);
    assert (h2 + rest)[..|h2|] == h2;
  }

  /** Text that starts with a lower-case literal starts with it ignoring case. */
  lemma LiteralPrefix(s: string, lit: string)
    requires StartsWith(s, lit)
    requires forall k :: 0 <= k < |lit| ==> LowerChar(lit[k]) == lit[k]
    ensures StartsWithIgnoringCase(s, lit)
  {
    forall k | 0 <= k < |lit| ensures SameLetter(s[k], lit[k]) {
      assert s[k] == lit[k];
    }
  }

  /** A run of hexadecimal digits followed by a non-digit is measured exactly. */
  lemma HexRunOf(h: string, rest: string)
    requires forall k :: 0 <= k < |h| ==> IsHexDigit(h[k])
    requires rest == [] || !IsHexDigit(rest[0])
    ensures HexRun(h + rest) == |h|
  {
    var s := h + rest;
    assert forall k :: 0 <= k < |h| ==> s[k] == h[k];
    assert |h| < |s| ==> s[|h|] == rest[0];
  }
}
