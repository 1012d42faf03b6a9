/**
 * Decisions of the e-book viewer's main window: where a book opens
 * (`open_at`), the search dock's title, the reverse shortcut map, and the
 * updates to the open book's annotations (reading position and highlight
 * notes).
 */
module Viewer {
  import opened Wrappers
  import opened Strings
  import opened OrderedDicts

  // ---------------------------------------------------------------- open_at

  datatype SearchKind = Normal | Regex

  /** A search to run once the book has loaded. */
  datatype PendingSearch = PendingSearch(kind: SearchKind, query: string, caseSensitive: bool)

  /** A node of the table of contents, as found by the contents model (`None` when nothing matches). */
  type TocNode = Option<int>

  /** The initial position handed to the web view. */
  datatype Position =
    | CfiPos(cfi: string)
    | TocPos(node: TocNode)
    | RefPos(anchor: string)
    | BookStart
    | BookFraction(number: string)

  /** The contents model's lookups, which are not part of this model. */
  datatype TocLookups = TocLookups(nodeForText: string -> TocNode, nodeForHref: (string, bool) -> TocNode)

  /**
   * The start of `load_finished`'s `open_at` handling: the remembered reading
   * position unless `open_at` names another one, the first matching prefix
   * winning. The pending search is `None` when it is left as it was.
   * `isNumber` stands for `is_float`.
   */
  function OpenAt(openAt: string, initialCfi: Option<string>, toc: TocLookups, isNumber: string -> bool)
    : (r: (Option<Position>, Option<PendingSearch>))
    ensures openAt == [] ==> r.1.None?
    ensures r.1.Some? ==> r.0 == Some(BookStart) && (r.1.value.caseSensitive <==> r.1.value.kind == Regex)
    ensures r.0.None? ==> r.1.None? && (initialCfi.None? || initialCfi.value == [])
  {
    var initial := if initialCfi.Some? && initialCfi.value != [] then Some(CfiPos(initialCfi.value)) else None;
    if openAt == [] then (initial, None)
    else if StartsWith(openAt, "toc:") then (Some(TocPos(toc.nodeForText(openAt[4..]))), None)
    else if StartsWith(openAt, "toc-href:") then (Some(TocPos(toc.nodeForHref(openAt[9..], true))), None)
    else if StartsWith(openAt, "toc-href-contains:") then (Some(TocPos(toc.nodeForHref(openAt[18..], false))), None)
    else if StartsWith(openAt, "epubcfi(/") then (Some(CfiPos(openAt)), None)
    else if StartsWith(openAt, "ref:") then (Some(RefPos(openAt[4..])), None)
    else if StartsWith(openAt, "search:") then (Some(BookStart), Some(PendingSearch(Normal, openAt[7..], false)))
    else if StartsWith(openAt, "regex:") then (Some(BookStart), Some(PendingSearch(Regex, openAt[6..], true)))
    else if isNumber(openAt) then (Some(BookFraction(openAt)), None)
    else (initial, None)
  }

  /** The recognised prefixes, in the order they are tried. */
  const OpenAtPrefixes: seq<string> :=
    ["toc:", "toc-href:", "toc-href-contains:", "epubcfi(/", "ref:", "search:", "regex:"]

  /** No `open_at` text starts with two of the prefixes, so the order decides nothing between them. */
  lemma OpenAtPrefixesExclusive(s: string, i: nat, j: nat)
    requires i < j < |OpenAtPrefixes|
    requires StartsWith(s, OpenAtPrefixes[i])
    ensures !StartsWith(s, OpenAtPrefixes[j])
  {
    var p, q := OpenAtPrefixes[i], OpenAtPrefixes[j];
    // the first position where the two prefixes differ
    var t := if j <= 2 then (if i == 1 then 8 else 3) else if i == 4 && j == 6 then 2 else 0;
    assert t < |p| && t < |q| && p[t] != q[t];
    assert s[..|p|][t] == s[t];
  }

  /** `toc:` looks the rest up as the text of a contents entry. */
  lemma OpenAtToc(rest: string, initialCfi: Option<string>, toc: TocLookups, isNumber: string -> bool)
    ensures OpenAt("toc:" + rest, initialCfi, toc, isNumber) == (Some(TocPos(toc.nodeForText(rest))), None)
  {
    var s := "toc:" + rest;
    assert s[..4] == "toc:" && s[4..] == rest;
  }

  /** `toc-href:` and `toc-href-contains:` look the rest up as a link, exactly or as a part. */
  lemma OpenAtTocHref(rest: string, initialCfi: Option<string>, toc: TocLookups, isNumber: string -> bool)
    ensures OpenAt("toc-href:" + rest, initialCfi, toc, isNumber) == (Some(TocPos(toc.nodeForHref(rest, true))), None)
    ensures OpenAt("toc-href-contains:" + rest, initialCfi, toc, isNumber) == (Some(TocPos(toc.nodeForHref(rest, false))), None)
  {
    var s := "toc-href:" + rest;
    assert s[..9] == "toc-href:" && s[9..] == rest && s[3] == '-';
    DiffersAt(s, "toc:", 3);
    var t := "toc-href-contains:" + rest;
    assert t[..18] == "toc-href-contains:" && t[18..] == rest && t[3] == '-' && t[8] == '-';
    DiffersAt(t, "toc:", 3);
    DiffersAt(t, "toc-href:", 8);
  }

  /** `search:` and `regex:` open the book at its start with a pending search of the rest. */
  lemma OpenAtSearch(rest: string, initialCfi: Option<string>, toc: TocLookups, isNumber: string -> bool)
    ensures OpenAt("search:" + rest, initialCfi, toc, isNumber) == (Some(BookStart), Some(PendingSearch(Normal, rest, false)))
    ensures OpenAt("regex:" + rest, initialCfi, toc, isNumber) == (Some(BookStart), Some(PendingSearch(Regex, rest, true)))
  {
    var s := "search:" + rest;
    assert s[..7] == "search:" && s[7..] == rest && s[0] == 's';
    DiffersAt(s, "toc:", 0);
    DiffersAt(s, "toc-href:", 0);
    DiffersAt(s, "toc-href-contains:", 0);
    DiffersAt(s, "epubcfi(/", 0);
    DiffersAt(s, "ref:", 0);
    var t := "regex:" + rest;
    assert t[..6] == "regex:" && t[6..] == rest && t[0] == 'r' && t[2] == 'g';
    DiffersAt(t, "toc:", 0);
    DiffersAt(t, "toc-href:", 0);
    DiffersAt(t, "toc-href-contains:", 0);
    DiffersAt(t, "epubcfi(/", 0);
    DiffersAt(t, "ref:", 2);
    DiffersAt(t, "search:", 0);
  }

  /** A CFI opens at itself and a `ref:` at the anchor that follows. */
  lemma OpenAtCfiOrRef(rest: string, initialCfi: Option<string>, toc: TocLookups, isNumber: string -> bool)
    ensures OpenAt("epubcfi(/" + rest, initialCfi, toc, isNumber) == (Some(CfiPos("epubcfi(/" + rest)), None)
    ensures OpenAt("ref:" + rest, initialCfi, toc, isNumber) == (Some(RefPos(rest)), None)
  {
    var s := "epubcfi(/" + rest;
    assert s[..9] == "epubcfi(/" && s[0] == 'e';
    DiffersAt(s, "toc:", 0);
    DiffersAt(s, "toc-href:", 0);
    DiffersAt(s, "toc-href-contains:", 0);
    var t := "ref:" + rest;
    assert t[..4] == "ref:" && t[4..] == rest && t[0] == 'r';
    DiffersAt(t, "toc:", 0);
    DiffersAt(t, "toc-href:", 0);
    DiffersAt(t, "toc-href-contains:", 0);
    DiffersAt(t, "epubcfi(/", 0);
  }

  /** Text that differs from `p` at a position inside both does not start with `p`. */
  lemma DiffersAt(s: string, p: string, k: nat)
    requires k < |p| && k < |s| && s[k] != p[k]
    ensures !StartsWith(s, p)
  {
    if |p| <= |s| {
      assert s[..|p|][k] == s[k];
    }
  }

  /** Text with none of the prefixes that is not a number leaves the remembered position and the pending search alone. */
  lemma OpenAtNoPrefix(openAt: string, initialCfi: Option<string>, toc: TocLookups, isNumber: string -> bool)
    requires forall k :: 0 <= k < |OpenAtPrefixes| ==> !StartsWith(openAt, OpenAtPrefixes[k])
    requires !isNumber(openAt)
    ensures OpenAt(openAt, initialCfi, toc, isNumber).0 ==
              (if initialCfi.Some? && initialCfi.value != [] then Some(CfiPos(initialCfi.value)) else None)
    ensures OpenAt(openAt, initialCfi, toc, isNumber).1 == None
  {
    assert !StartsWith(openAt, OpenAtPrefixes[0]) && !StartsWith(openAt, OpenAtPrefixes[1]);
    assert !StartsWith(openAt, OpenAtPrefixes[2]) && !StartsWith(openAt, OpenAtPrefixes[3]);
    assert !StartsWith(openAt, OpenAtPrefixes[4]) && !StartsWith(openAt, OpenAtPrefixes[5]);
    assert !StartsWith(openAt, OpenAtPrefixes[6]);
  }

  // ---------------------------------------------------------------- search dock title

  /** `search_results_count_changed`: the search dock's title for a number of matches (negative: no search). */
  function SearchTitle(num: int): (t: string)
    ensures StartsWith(t, "Search")
    ensures t == "Search" <==> num < 0
  {
    if num < 0 then "Search"
    else if num == 0 then "Search :: no matches"
    else if num == 1 then "Search :: one match"
    else "Search :: " + IntToString(num) + " matches"
  }

  /** The title names the count, which can be read back from it when there are several matches. */
  lemma SearchTitleCount(num: int)
    requires num > 1
    ensures StartsWith(SearchTitle(num), "Search :: ") && EndsWith(SearchTitle(num), " matches")
    ensures ParseInt(SearchTitle(num)[10..|SearchTitle(num)| - 8]) == Some(num)
  {
    var t := SearchTitle(num);
    var d := IntToString(num);
    assert t == "Search :: " + d + " matches";
    assert t[..10] == "Search :: ";
    assert t[|t| - 8..] == " matches";
    assert t[10..|t| - 8] == d;
    ParseIntToString(num);
  }

  /** With several matches the title is none of the fixed ones. */
  lemma SearchTitleMany(k: int)
    requires k > 1
    ensures SearchTitle(k) !in {"Search", "Search :: no matches", "Search :: one match"}
  {
    var t, d := SearchTitle(k), IntToString(k);
    assert t == "Search :: " + d + " matches";
    IntToStringChars(k);
    assert d[0] in d;
    assert t[10] == d[0];
    assert "Search :: no matches"[10] == 'n' && "Search :: one match"[10] == 'o';
  }

  /** Different counts give different titles. */
  lemma SearchTitleInjective(m: int, n: int)
    requires m >= -1 && n >= -1 && SearchTitle(m) == SearchTitle(n)
    ensures m == n
  {
    if m > 1 && n > 1 {
      SearchTitleCount(m);
      SearchTitleCount(n);
    } else if m > 1 || n > 1 {
      SearchTitleMany(if m > 1 then m else n);
    }
  }

  // ---------------------------------------------------------------- shortcuts

  /** The reverse shortcut map built by `shortcuts_changed`: each action with its keys, in the order of the map. */
  function Inverse(smap: ODict<string, string>): (r: map<string, seq<string>>)
    ensures forall v :: v in r ==> r[v] != []
    ensures forall v :: v in r <==> exists i :: 0 <= i < |smap| && smap[i].1 == v
  {
    if smap == [] then map[]
    else
      var r := Inverse(smap[..|smap| - 1]);
      var k, v := smap[|smap| - 1].0, smap[|smap| - 1].1;
      r[v := (if v in r then r[v] else []) + [k]]
  }

  /** A key is listed under an action exactly when the map binds that key to that action. */
  lemma {:induction false} InverseMembers(smap: ODict<string, string>, k: string, v: string)
    ensures (v in Inverse(smap) && k in Inverse(smap)[v]) <==> exists i :: 0 <= i < |smap| && smap[i] == (k, v)
    decreases |smap|
  {
    if smap != [] {
      var pre := smap[..|smap| - 1];
      InverseMembers(pre, k, v);
      assert forall i :: 0 <= i < |pre| ==> smap[i] == pre[i];
      if exists i :: 0 <= i < |smap| && smap[i] == (k, v) {
        var i :| 0 <= i < |smap| && smap[i] == (k, v);
        if i < |pre| {
          assert pre[i] == (k, v);
        }
      }
    }
  }

  /** Every key of a shortcut map is listed under its own action and under no other. */
  lemma InverseExactly(smap: ODict<string, string>, k: string, v: string)
    requires DistinctKeys(smap)
    ensures (v in Inverse(smap) && k in Inverse(smap)[v]) <==> Lookup(smap, k) == Some(v)
  {
    InverseMembers(smap, k, v);
    if Lookup(smap, k) == Some(v) {
      var i :| 0 <= i < |smap| && smap[i].0 == k;
      LookupAt(smap, i);
      assert smap[i] == (k, v);
    }
    if exists i :: 0 <= i < |smap| && smap[i] == (k, v) {
      var i :| 0 <= i < |smap| && smap[i] == (k, v);
      LookupAt(smap, i);
    }
  }

  /** `shortcuts_changed`: builds the reverse map in one pass over the shortcut map. */
  method ShortcutsChanged(smap: ODict<string, string>) returns (rmap: map<string, seq<string>>)
    ensures rmap == Inverse(smap)
  {
    rmap := map[];
    var i := 0;
    while i < |smap|
      invariant 0 <= i <= |smap| && rmap == Inverse(smap[..i])
    {
      var k, v := smap[i].0, smap[i].1;
      ghost var pre := smap[..i + 1];
      assert pre[..|pre| - 1] == smap[..i] && pre[|pre| - 1] == smap[i];
      var keys := if v in rmap then rmap[v] else [];
      rmap := rmap[v := keys + [k]];
      i := i + 1;
    }
    assert smap[..i] == smap;
  }

  // ---------------------------------------------------------------- annotations

  /** An entry of the `last-read` list. */
  datatype ReadPosition = ReadPosition(pos: string, posType: string, timestamp: string)

  /** A highlight with its notes. */
  datatype Highlight = Highlight(uuid: Option<string>, notes: string, timestamp: string, rest: string)

  /** `initial_cfi_for_current_book`: the first reading position, when it is a CFI and positions are remembered. */
  function InitialCfi(lastRead: seq<ReadPosition>, rememberLastRead: bool): (r: Option<string>)
    ensures r.Some? <==> lastRead != [] && rememberLastRead && lastRead[0].posType == "epubcfi"
    ensures r.Some? ==> r.value == lastRead[0].pos
  {
    if lastRead != [] && rememberLastRead && lastRead[0].posType == "epubcfi" then Some(lastRead[0].pos) else None
  }

  /** The first highlight with the given uuid. */
  function FirstWithUuid(hs: seq<Highlight>, uuid: string): (r: Option<nat>)
    ensures r.Some? ==> r.value < |hs| && hs[r.value].uuid == Some(uuid) &&
                        forall j :: 0 <= j < r.value ==> hs[j].uuid != Some(uuid)
    ensures r.None? ==> forall j :: 0 <= j < |hs| ==> hs[j].uuid != Some(uuid)
  {
    if hs == [] then None
    else if hs[0].uuid == Some(uuid) then Some(0)
    else match FirstWithUuid(hs[1..], uuid)
      case None => None
      case Some(i) => Some(i + 1)
  }

  /** The annotations of the book open in the viewer. */
  class ViewerWindow {
    /** Whether `current_book_data` holds a book. */
    var bookLoaded: bool
    var lastRead: seq<ReadPosition>
    var highlights: seq<Highlight>
    /** How many times the annotations were sent to be saved. */
    var saves: nat
    /** How many times the timer that saves the reading position was started. */
    var positionSaves: nat

    constructor ()
      ensures !bookLoaded && lastRead == [] && highlights == [] && saves == 0 && positionSaves == 0
    {
      bookLoaded := false;
      lastRead := [];
      highlights := [];
      saves := 0;
      positionSaves := 0;
    }

    /** `cfi_changed`: with a book open, the reading position becomes the single CFI given. */
    method CfiChanged(cfi: string, now: string)
      modifies this
      ensures old(bookLoaded) ==> lastRead == [ReadPosition(cfi, "epubcfi", now)] && positionSaves == old(positionSaves) + 1
      ensures !old(bookLoaded) ==> lastRead == old(lastRead) && positionSaves == old(positionSaves)
      ensures bookLoaded == old(bookLoaded) && highlights == old(highlights) && saves == old(saves)
    {
      if !bookLoaded {
        return;
      }
      lastRead := [ReadPosition(cfi, "epubcfi", now)];
      positionSaves := positionSaves + 1;
    }

    /**
     * `notes_edited`: the first highlight with the uuid gets the notes and a
     * new timestamp and the annotations are saved; with no such highlight
     * nothing happens. With no book open the lookup raises (`raised`).
     */
    method NotesEdited(uuid: string, notes: string, now: string) returns (raised: bool)
      modifies this
      ensures raised <==> !old(bookLoaded)
      ensures (raised || FirstWithUuid(old(highlights), uuid).None?) ==> highlights == old(highlights) && saves == old(saves)
      ensures !raised && FirstWithUuid(old(highlights), uuid).Some? ==>
                var i := FirstWithUuid(old(highlights), uuid).value;
                highlights == old(highlights)[i := old(highlights)[i].(notes := notes, timestamp := now)] &&
                saves == old(saves) + 1
      ensures bookLoaded == old(bookLoaded) && lastRead == old(lastRead) && positionSaves == old(positionSaves)
    {
      if !bookLoaded {
        return true;
      }
      raised := false;
      var i := 0;
      while i < |highlights|
        invariant 0 <= i <= |highlights| && highlights == old(highlights) && saves == old(saves)
        invariant forall j :: 0 <= j < i ==> highlights[j].uuid != Some(uuid)
      {
        if highlights[i].uuid == Some(uuid) {
          highlights := highlights[i := highlights[i].(notes := notes, timestamp := now)];
          saves := saves + 1;
          return;
        }
        i := i + 1;
      }
    }
  }

  /** After `cfi_changed`, the book reopens at that position when positions are remembered. */
  lemma CfiChangedReopens(cfi: string, now: string)
    ensures InitialCfi([ReadPosition(cfi, "epubcfi", now)], true) == Some(cfi)
    ensures InitialCfi([ReadPosition(cfi, "epubcfi", now)], false) == None
  {
  }

  /** Editing notes touches one highlight only, and keeps every uuid where it was. */
  lemma NotesEditedOne(hs: seq<Highlight>, uuid: string, notes: string, now: string, j: nat)
    requires FirstWithUuid(hs, uuid).Some? && j < |hs|
    ensures var i := FirstWithUuid(hs, uuid).value;
            var hs' := hs[i := hs[i].(notes := notes, timestamp := now)];
            hs'[j].uuid == hs[j].uuid && (j != i ==> hs'[j] == hs[j]) && FirstWithUuid(hs', uuid) == Some(i)
  {
    var i := FirstWithUuid(hs, uuid).value;
    var hs' := hs[i := hs[i].(notes := notes, timestamp := now)];
    assert hs'[i].uuid == Some(uuid);
    var r := FirstWithUuid(hs', uuid);
    assert r.Some? && r.value <= i;
    assert hs'[r.value] == hs[r.value] || r.value == i;
  }
}
