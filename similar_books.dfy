/**
 * The "Similar books" action: from the current book's value of a configured
 * column it builds a search of the form `col:"=value"`, one term per value,
 * joined with ` and ` or ` or `. Series are searched by their top-level
 * name, and a trailing "et al." is dropped from author names.
 */
module SimilarBooks {
  import opened Wrappers
  import opened Strings
  import PosixPath

  /** A metadata field's value: missing, one text, or a list of texts. */
  datatype FieldValue = NoValue | Text(s: string) | Values(items: seq<string>)

  /** Python truthiness of a field value. */
  predicate Truthy(v: FieldValue) {
    match v
    case NoValue => false
    case Text(s) => s != []
    case Values(items) => items != []
  }

  type Metadata = map<string, FieldValue>

  /** `mi.get(f, None)`. */
  function Get(mi: Metadata, f: string): FieldValue {
    if f in mi then mi[f] else NoValue
  }

  // ---------------------------------------------------------------- grouped search terms

  /** `val.add(x)` on a set, kept in first-seen order. */
  function Add(acc: seq<string>, x: string): seq<string> {
    if x in acc then acc else acc + [x]
  }

  /** `val.update(xs)`. */
  function AddAll(acc: seq<string>, xs: seq<string>): seq<string>
    decreases |xs|
  {
    if xs == [] then acc else AddAll(Add(acc, xs[0]), xs[1..])
  }

  predicate NoDuplicates(xs: seq<string>) {
    forall i, j :: 0 <= i < j < |xs| ==> xs[i] != xs[j]
  }

  /** `update` adds exactly the new values and keeps the collection free of duplicates. */
  lemma {:induction false} AddAllMembers(acc: seq<string>, xs: seq<string>, x: string)
    ensures x in AddAll(acc, xs) <==> x in acc || x in xs
    ensures NoDuplicates(acc) ==> NoDuplicates(AddAll(acc, xs))
    decreases |xs|
  {
    if xs != [] {
      AddAllMembers(Add(acc, xs[0]), xs[1..], x);
      assert xs == [xs[0]] + xs[1..];
    }
  }

  /**
   * The values one field of a grouped search term contributes: nothing when
   * the value is falsy, else the value split by
   * `split_if_is_multiple_composite` (`splitComposite`, `None` when the field
   * is not a multiple-valued composite column).
   */
  function FieldValues(f: string, mi: Metadata, splitComposite: (string, string) -> Option<seq<string>>): seq<string> {
    var v := Get(mi, f);
    if !Truthy(v) then []
    else match v
      case Values(items) => items
      case Text(s) => (match splitComposite(f, s) case None => [s] case Some(parts) => parts)
      case NoValue => []
  }

  /** The values of all the fields of a grouped search term, without duplicates. */
  function GroupedValues(fields: seq<string>, mi: Metadata, splitComposite: (string, string) -> Option<seq<string>>): seq<string> {
    if fields == [] then []
    else AddAll(GroupedValues(fields[..|fields| - 1], mi, splitComposite), FieldValues(fields[|fields| - 1], mi, splitComposite))
  }

  /** The collected values are exactly the values of the fields, each once. */
  lemma {:induction false} GroupedValuesMembers(fields: seq<string>, mi: Metadata,
                                                splitComposite: (string, string) -> Option<seq<string>>, x: string)
    ensures x in GroupedValues(fields, mi, splitComposite) <==>
              exists i :: 0 <= i < |fields| && x in FieldValues(fields[i], mi, splitComposite)
    ensures NoDuplicates(GroupedValues(fields, mi, splitComposite))
    decreases |fields|
  {
    if fields != [] {
      var pre := fields[..|fields| - 1];
      GroupedValuesMembers(pre, mi, splitComposite, x);
      AddAllMembers(GroupedValues(pre, mi, splitComposite), FieldValues(fields[|fields| - 1], mi, splitComposite), x);
      assert forall i :: 0 <= i < |pre| ==> pre[i] == fields[i];
      if exists i :: 0 <= i < |fields| && x in FieldValues(fields[i], mi, splitComposite) {
        var i :| 0 <= i < |fields| && x in FieldValues(fields[i], mi, splitComposite);
        if i < |pre| {
          assert x in FieldValues(pre[i], mi, splitComposite);
        }
      }
    }
  }

  /** The loop over the fields of a grouped search term. */
  method CollectGroupedValues(fields: seq<string>, mi: Metadata, splitComposite: (string, string) -> Option<seq<string>>)
    returns (val: seq<string>)
    ensures val == GroupedValues(fields, mi, splitComposite)
  {
    val := [];
    for i := 0 to |fields|
      invariant val == GroupedValues(fields[..i], mi, splitComposite)
    {
      assert fields[..i + 1][..i] == fields[..i];
      var f := fields[i];
      var v := Get(mi, f);
      assert GroupedValues(fields[..i + 1], mi, splitComposite) == AddAll(val, FieldValues(f, mi, splitComposite));
      if !Truthy(v) {
        continue;
      }
      match v {
        case Values(items) => val := AddAll(val, items);
        case Text(s) =>
          match splitComposite(f, s) {
            case None =>
              assert AddAll(val, [s]) == AddAll(Add(val, s), []);
              val := Add(val, s);
            case Some(parts) => val := AddAll(val, parts);
          }
      }
    }
    assert fields[..|fields|] == fields;
  }

  // ---------------------------------------------------------------- terms

  /** `t.replace('"', '\\"')`. */
  function Escape(t: string): string {
    ReplaceAll(t, "\"", "\\\"")
  }

  /** Reading an escaped value back: each `\"` stands for `"`. */
  function Unescape(t: string): string {
    ReplaceAll(t, "\\\"", "\"")
  }

  /** Escaping loses nothing: the value can be read back from its term. */
  lemma {:induction false} EscapeRoundTrip(t: string)
    ensures Unescape(Escape(t)) == t
    decreases |t|
  {
    if t != [] {
      var e := Escape(t[1..]);
      EscapeRoundTrip(t[1..]);
      if t[0] == '"' {
        assert Escape(t) == "\\\"" + e;
        assert ("\\\"" + e)[2..] == e;
      } else {
        assert Escape(t) == [t[0]] + e;
        assert ([t[0]] + e)[1..] == e;
        EscapeHead(t[1..]);
      }
      assert [t[0]] + t[1..] == t;
    }
  }

  /** An escaped value never starts with a quote: a leading quote of the value becomes a backslash. */
  lemma EscapeHead(t: string)
    ensures Escape(t) != [] ==> Escape(t)[0] != '"'
  {
    if t != [] && t[0] == '"' {
      assert Escape(t) == "\\\"" + Escape(t[1..]);
    } else if t != [] {
      assert Escape(t) == [t[0]] + Escape(t[1..]);
    }
  }

  /** Every quote of the value is escaped: the escaped text has a quote only right after a backslash. */
  lemma {:induction false} EscapedQuotes(t: string, k: nat)
    requires k < |Escape(t)| && Escape(t)[k] == '"'
    ensures k > 0 && Escape(t)[k - 1] == '\\'
    decreases |t|
  {
    var e := Escape(t[1..]);
    if t[0] == '"' {
      assert Escape(t) == "\\\"" + e;
      if k >= 2 {
        EscapedQuotes(t[1..], k - 2);
      }
    } else {
      assert Escape(t) == [t[0]] + e;
      EscapedQuotes(t[1..], k - 1);
    }
  }

  /** One search term, `col:"=value"`. */
  function Term(col: string, t: string): string {
    col + ":\"=" + Escape(t) + "\""
  }

  /** The top-level part of a series: cut at the first `.` when that is not the first character. */
  function SeriesHead(s: string): (r: string)
    ensures PosixPath.Find(s, '.') > 0 ==> '.' !in r && r != [] && StartsWith(s, r) && s[|r|] == '.'
    ensures PosixPath.Find(s, '.') <= 0 ==> r == s
  {
    var i := PosixPath.Find(s, '.');
    if i > 0 then s[..i] else s
  }

  /** Whitespace at the end removed (the `\s+` before "et al."). */
  function TrimTrailingSpace(s: string): (r: string)
    ensures StartsWith(s, r) && (r == [] || !IsSpace(r[|r| - 1]))
    ensures forall k :: |r| <= k < |s| ==> IsSpace(s[k])
  {
    if s != [] && IsSpace(s[|s| - 1]) then TrimTrailingSpace(s[..|s| - 1]) else s
  }

  /**
   * `re.sub(r'\s+et al\.$', '', au)`: whitespace followed by "et al." at the
   * end, or just before a final newline, is removed.
   */
  function RemoveEtAl(au: string): string {
    var tail := if !EndsWith(au, "et al.") && EndsWith(au, "et al.\n") then "\n" else "";
    var core := au[..|au| - |tail|];
    if EndsWith(core, "et al.") && |core| > 6 && IsSpace(core[|core| - 7]) then TrimTrailingSpace(core[..|core| - 6]) + tail
    else au
  }

  /** A name followed by whitespace and "et al." loses both. */
  lemma RemoveEtAlOf(name: string, gap: string)
    requires name == [] || !IsSpace(name[|name| - 1])
    requires gap != [] && forall k :: 0 <= k < |gap| ==> IsSpace(gap[k])
    ensures RemoveEtAl(name + gap + "et al.") == name
  {
    var au := name + gap + "et al.";
    assert au[|au| - 6..] == "et al.";
    assert au[..|au| - 0] == au;
    assert au[..|au| - 6] == name + gap;
    assert au[|au| - 7] == gap[|gap| - 1];
    TrimGap(name, gap);
  }

  lemma {:induction false} TrimGap(name: string, gap: string)
    requires name == [] || !IsSpace(name[|name| - 1])
    requires forall k :: 0 <= k < |gap| ==> IsSpace(gap[k])
    ensures TrimTrailingSpace(name + gap) == name
    decreases |gap|
  {
    if gap != [] {
      assert (name + gap)[..|name + gap| - 1] == name + gap[..|gap| - 1];
      TrimGap(name, gap[..|gap| - 1]);
    } else {
      assert name + gap == name;
    }
  }

  /** A name that does not end in "et al." is kept as it is. */
  lemma RemoveEtAlKeeps(au: string)
    requires !EndsWith(au, "et al.") && !EndsWith(au, "et al.\n")
    ensures RemoveEtAl(au) == au
  {
  }

  // ---------------------------------------------------------------- the search

  datatype Failure = TypeError

  /** The search terms for the values of the column. */
  function Terms(typ: string, col: string, items: seq<string>): (r: seq<string>)
    requires items != []
    ensures typ == "series" ==> |r| == 1
    ensures typ != "series" ==> |r| == |items|
  {
    if typ == "series" then [col + ":\"=." + SeriesHead(Escape(items[0])) + "\""]
    else if typ == "authors" then seq(|items|, i requires 0 <= i < |items| => Term(col, RemoveEtAl(items[i])))
    else seq(|items|, i requires 0 <= i < |items| => Term(col, items[i]))
  }

  /** The join between the terms. */
  function JoinWord(matchKind: string): string {
    if matchKind == "match_all" then " and " else " or "
  }

  /**
   * `show_similar_books`: the search for the current book, `None` when there
   * is nothing to search for. `resolve` stands for the search term's field
   * lookup (`Some(fields)` for a grouped search term); `fieldKeys` are the
   * book's fields and `defaultCol` the column's default setting.
   */
  function SimilarSearch(typ: string, col: string, defaultCol: string, matchKind: string, mi: Metadata,
                         fieldKeys: set<string>, resolve: string -> Option<seq<string>>,
                         splitComposite: (string, string) -> Option<seq<string>>): (r: Result<Option<string>, Failure>)
    ensures r.Err? ==> typ == "series" && resolve(Lower(col)).Some?
  {
    match resolve(Lower(col))
    case Some(fields) =>
      var val := GroupedValues(fields, mi, splitComposite);
      if val == [] then Ok(None)
      else if typ == "series" then Err(TypeError)
      else Ok(Some(Join(Terms(typ, col, val), JoinWord(matchKind))))
    case None =>
      var c := if col in fieldKeys then col else defaultCol;
      var val := Get(mi, c);
      if !Truthy(val) then Ok(None)
      else
        var items := if val.Text? then [val.s] else val.items;
        Ok(Some(Join(Terms(typ, c, items), JoinWord(matchKind))))
  }

  /** A missing or empty value searches for nothing. */
  lemma EmptyValueNoSearch(typ: string, col: string, defaultCol: string, matchKind: string, mi: Metadata,
                           fieldKeys: set<string>, resolve: string -> Option<seq<string>>,
                           splitComposite: (string, string) -> Option<seq<string>>)
    requires resolve(Lower(col)).None?
    requires !Truthy(Get(mi, if col in fieldKeys then col else defaultCol))
    ensures SimilarSearch(typ, col, defaultCol, matchKind, mi, fieldKeys, resolve, splitComposite) == Ok(None)
  {
  }

  /** A single text is searched like a list holding it. */
  lemma TextIsOneValue(typ: string, col: string, matchKind: string, s: string, mi: Metadata,
                       fieldKeys: set<string>, resolve: string -> Option<seq<string>>,
                       splitComposite: (string, string) -> Option<seq<string>>)
    requires resolve(Lower(col)).None? && col in fieldKeys && s != [] && Get(mi, col) == Text(s)
    ensures SimilarSearch(typ, col, col, matchKind, mi, fieldKeys, resolve, splitComposite) ==
            SimilarSearch(typ, col, col, matchKind, mi[col := Values([s])], fieldKeys, resolve, splitComposite)
  {
  }

  /** Two tags give two terms, joined by ` and ` for "match all" and ` or ` otherwise. */
  lemma TwoValuesJoined(col: string, matchKind: string, a: string, b: string, mi: Metadata,
                        fieldKeys: set<string>, resolve: string -> Option<seq<string>>,
                        splitComposite: (string, string) -> Option<seq<string>>)
    requires resolve(Lower(col)).None? && col in fieldKeys && Get(mi, col) == Values([a, b])
    ensures SimilarSearch("tags", col, col, matchKind, mi, fieldKeys, resolve, splitComposite) ==
            Ok(Some(Term(col, a) + (if matchKind == "match_all" then " and " else " or ") + Term(col, b)))
  {
    var ts := Terms("tags", col, [a, b]);
    assert ts == [Term(col, a), Term(col, b)];
    assert Join(ts, JoinWord(matchKind)) == Term(col, a) + JoinWord(matchKind) + Join(ts[1..], JoinWord(matchKind));
  }

  /** A series is searched by the top level of its first value only. */
  lemma SeriesFirstValue(col: string, matchKind: string, s: string, rest: seq<string>, mi: Metadata,
                         fieldKeys: set<string>, resolve: string -> Option<seq<string>>,
                         splitComposite: (string, string) -> Option<seq<string>>)
    requires resolve(Lower(col)).None? && col in fieldKeys && Get(mi, col) == Values([s] + rest)
    ensures SimilarSearch("series", col, col, matchKind, mi, fieldKeys, resolve, splitComposite) ==
            Ok(Some(col + ":\"=." + SeriesHead(Escape(s)) + "\""))
  {
  }

  /** Authors are searched without their "et al.". */
  lemma AuthorEtAl(col: string, matchKind: string, name: string, mi: Metadata,
                   fieldKeys: set<string>, resolve: string -> Option<seq<string>>,
                   splitComposite: (string, string) -> Option<seq<string>>)
    requires resolve(Lower(col)).None? && col in fieldKeys && Get(mi, col) == Values([name + " et al."])
    requires name == [] || !IsSpace(name[|name| - 1])
    ensures SimilarSearch("authors", col, col, matchKind, mi, fieldKeys, resolve, splitComposite) == Ok(Some(Term(col, name)))
  {
    RemoveEtAlOf(name, " ");
    assert name + " " + "et al." == name + " et al.";
    assert Terms("authors", col, [name + " et al."]) == [Term(col, name)];
  }

  /** A grouped search term's values cannot be indexed, so a series search over one raises. */
  lemma GroupedSeriesRaises(col: string, defaultCol: string, matchKind: string, mi: Metadata, fields: seq<string>,
                            fieldKeys: set<string>, resolve: string -> Option<seq<string>>,
                            splitComposite: (string, string) -> Option<seq<string>>)
    requires resolve(Lower(col)) == Some(fields) && |fields| > 0
    requires Truthy(Get(mi, fields[0])) && Get(mi, fields[0]).Values?
    ensures SimilarSearch("series", col, defaultCol, matchKind, mi, fieldKeys, resolve, splitComposite) == Err(TypeError)
  {
    var x := Get(mi, fields[0]).items[0];
    assert x in FieldValues(fields[0], mi, splitComposite);
    GroupedValuesMembers(fields, mi, splitComposite, x);
  }
}
