/**
 * Matching the books on a device with the books of the library, and the
 * per-book location report built from the device's book lists.
 *
 * The library is given as the records the database returns for each book; a
 * device book list is an array of book records whose `inLibrary` and
 * `applicationId` (and possibly `authorSort`) the matching updates in place.
 */
module DeviceBooks {
  import opened Wrappers
  import opened Strings

  // ---------------------------------------------------------------- clean_string

  /** What `\w` keeps, apart from `_`: ASCII letters and digits, and every non-ASCII character that is not a space. */
  predicate IsWordChar(c: char) {
    ('a' <= c <= 'z') || ('A' <= c <= 'Z') || ('0' <= c <= '9') || (c as int >= 128 && !IsSpace(c))
  }

  /** Removes every character `(?u)\W|[_]` matches. */
  function WordChars(s: string): (r: string)
    ensures forall c :: c in r ==> IsWordChar(c) && c in s
    ensures forall c :: c in s && IsWordChar(c) ==> c in r
  {
    if s == [] then [] else (if IsWordChar(s[0]) then [s[0]] else []) + WordChars(s[1..])
  }

  /** `clean_string`: lower-cased (an absent or empty value gives the empty text), then only word characters. */
  function CleanString(x: Option<string>): (r: string)
    ensures forall c :: c in r ==> IsWordChar(c) && !('A' <= c <= 'Z')
  {
    if x.None? || x.value == [] then [] else WordChars(Lower(x.value))
  }

  lemma {:induction false} WordCharsAppend(a: string, b: string)
    ensures WordChars(a + b) == WordChars(a) + WordChars(b)
    decreases |a|
  {
    if a != [] {
      assert (a + b)[0] == a[0] && (a + b)[1..] == a[1..] + b;
      WordCharsAppend(a[1..], b);
    } else {
      assert a + b == b;
    }
  }

  lemma {:induction false} WordCharsKeeps(s: string)
    requires forall c :: c in s ==> IsWordChar(c)
    ensures WordChars(s) == s
    decreases |s|
  {
    if s != [] {
      WordCharsKeeps(s[1..]);
      assert [s[0]] + s[1..] == s;
    }
  }

  lemma {:induction false} LowerKeepsLower(s: string)
    requires forall c :: c in s ==> !('A' <= c <= 'Z')
    ensures Lower(s) == s
  {
    assert forall k :: 0 <= k < |s| ==> s[k] in s;
  }

  lemma {:induction false} LowerAppend(a: string, b: string)
    ensures Lower(a + b) == Lower(a) + Lower(b)
  {
  }

  /** Cleaning is idempotent. */
  lemma CleanIdempotent(x: Option<string>)
    ensures CleanString(Some(CleanString(x))) == CleanString(x)
  {
    var r := CleanString(x);
    if r != [] {
      LowerKeepsLower(r);
      WordCharsKeeps(r);
    }
  }

  /** The concatenation of the cleaned authors. */
  function CleanEach(authors: seq<string>): string {
    if authors == [] then [] else CleanString(Some(authors[0])) + CleanEach(authors[1..])
  }

  lemma CleanIsWordsOfLower(s: string)
    ensures CleanString(Some(s)) == WordChars(Lower(s))
  {
  }

  /** The authors joined with ` & ` clean to the concatenation of the cleaned authors: the separators vanish. */
  lemma {:induction false} CleanJoinedAuthors(authors: seq<string>)
    ensures CleanString(Some(Join(authors, " & "))) == CleanEach(authors)
    decreases |authors|
  {
    if |authors| == 1 {
      assert CleanEach(authors) == CleanString(Some(authors[0])) + CleanEach([]);
    } else if |authors| > 1 {
      var a := authors[0];
      var rest := Join(authors[1..], " & ");
      assert Join(authors, " & ") == a + (" & " + rest);
      CleanJoinedAuthors(authors[1..]);
      SeparatorVanishes(a, rest);
      CleanIsWordsOfLower(a);
      CleanIsWordsOfLower(rest);
      CleanIsWordsOfLower(a + (" & " + rest));
    }
  }

  lemma SeparatorVanishes(a: string, rest: string)
    ensures WordChars(Lower(a + (" & " + rest))) == WordChars(Lower(a)) + WordChars(Lower(rest))
  {
    LowerSeparator(a, rest);
    WordCharsSeparator(Lower(a), Lower(rest));
  }

  lemma LowerSeparator(a: string, rest: string)
    ensures Lower(a + (" & " + rest)) == Lower(a) + (" & " + Lower(rest))
  {
    LowerAppend(a, " & " + rest);
    LowerAppend(" & ", rest);
    assert Lower(" & ") == " & ";
  }

  lemma WordCharsSeparator(a: string, rest: string)
    ensures WordChars(a + (" & " + rest)) == WordChars(a) + WordChars(rest)
  {
    var sep := " & ";
    WordCharsAppend(a, sep + rest);
    WordCharsAppend(sep, rest);
    SeparatorHasNoWordChars();
    assert [] + WordChars(rest) == WordChars(rest);
  }

  lemma SeparatorHasNoWordChars()
    ensures WordChars(" & ") == []
  {
    var sep := " & ";
    assert sep[0] == ' ' && sep[1] == '&' && sep[2] == ' ';
    WordCharsNone(sep);
  }

  lemma {:induction false} WordCharsNone(s: string)
    requires forall k :: 0 <= k < |s| ==> !IsWordChar(s[k])
    ensures WordChars(s) == []
    decreases |s|
  {
    if s != [] {
      WordCharsNone(s[1..]);
    }
  }

  // ---------------------------------------------------------------- library caches

  /** What the database says about one library book. */
  datatype LibraryBook = LibraryBook(id: int, title: Option<string>, authors: Option<string>, authorSort: Option<string>, uuid: string)

  /** The books of one cleaned title, by cleaned authors, by cleaned author sort, and their ids. */
  datatype TitleEntry = TitleEntry(authors: map<string, int>, authorSort: map<string, int>, dbIds: set<int>)

  type TitleCache = map<string, TitleEntry>

  const EmptyEntry: TitleEntry := TitleEntry(map[], map[], {})

  /** Records one library book in the title cache; a later book with the same key replaces an earlier one. */
  function AddTitle(tc: TitleCache, b: LibraryBook): TitleCache {
    var title := CleanString(b.title);
    var d := if title in tc then tc[title] else EmptyEntry;
    var authors := CleanString(b.authors);
    var d1 := if authors != [] then d.(authors := d.authors[authors := b.id]) else d;
    var d2 := if b.authorSort.Some? && b.authorSort.value != [] then d1.(authorSort := d1.authorSort[CleanString(b.authorSort) := b.id]) else d1;
    tc[title := d2.(dbIds := d2.dbIds + {b.id})]
  }

  function TitleCacheOf(lib: seq<LibraryBook>): TitleCache {
    if lib == [] then map[] else AddTitle(TitleCacheOf(lib[..|lib| - 1]), lib[|lib| - 1])
  }

  function UuidCacheOf(lib: seq<LibraryBook>): map<string, int> {
    if lib == [] then map[] else UuidCacheOf(lib[..|lib| - 1])[lib[|lib| - 1].uuid := lib[|lib| - 1].id]
  }

  /** Every id the title cache holds under a title is the id of a library book with that cleaned title. */
  ghost predicate TitleCacheSound(tc: TitleCache, lib: seq<LibraryBook>) {
    forall t, x :: t in tc && (x in tc[t].dbIds || x in tc[t].authors.Values || x in tc[t].authorSort.Values) ==>
      exists k :: 0 <= k < |lib| && lib[k].id == x && CleanString(lib[k].title) == t
  }

  /** Every library book's id is held under its cleaned title. */
  ghost predicate TitleCacheComplete(tc: TitleCache, lib: seq<LibraryBook>) {
    forall k :: 0 <= k < |lib| ==> CleanString(lib[k].title) in tc && lib[k].id in tc[CleanString(lib[k].title)].dbIds
  }

  lemma {:induction false} TitleCacheOfSound(lib: seq<LibraryBook>)
    ensures TitleCacheSound(TitleCacheOf(lib), lib)
    ensures TitleCacheComplete(TitleCacheOf(lib), lib)
    decreases |lib|
  {
    if lib != [] {
      var pre := lib[..|lib| - 1];
      var b := lib[|lib| - 1];
      TitleCacheOfSound(pre);
      var tc := TitleCacheOf(pre);
      var tc' := AddTitle(tc, b);
      assert forall k :: 0 <= k < |pre| ==> lib[k] == pre[k];
      forall t, x | t in tc' && (x in tc'[t].dbIds || x in tc'[t].authors.Values || x in tc'[t].authorSort.Values)
        ensures exists k :: 0 <= k < |lib| && lib[k].id == x && CleanString(lib[k].title) == t
      {
        if x == b.id && t == CleanString(b.title) {
          assert lib[|lib| - 1] == b;
        } else {
          assert t in tc && (x in tc[t].dbIds || x in tc[t].authors.Values || x in tc[t].authorSort.Values) by {
            AddTitleOld(tc, b, t, x);
          }
          var k :| 0 <= k < |pre| && pre[k].id == x && CleanString(pre[k].title) == t;
          assert lib[k] == pre[k];
        }
      }
      forall k | 0 <= k < |lib| ensures CleanString(lib[k].title) in tc' && lib[k].id in tc'[CleanString(lib[k].title)].dbIds {
        if k < |pre| {
          assert lib[k] == pre[k];
        }
      }
    }
  }

  /** An id the extended cache holds that is not the new book's (under its title) was already held. */
  lemma AddTitleOld(tc: TitleCache, b: LibraryBook, t: string, x: int)
    requires t in AddTitle(tc, b)
    requires var e := AddTitle(tc, b)[t]; x in e.dbIds || x in e.authors.Values || x in e.authorSort.Values
    requires !(x == b.id && t == CleanString(b.title))
    ensures t in tc && (x in tc[t].dbIds || x in tc[t].authors.Values || x in tc[t].authorSort.Values)
  {
    var title := CleanString(b.title);
    if t == title {
      var d := if title in tc then tc[title] else EmptyEntry;
      var e := AddTitle(tc, b)[t];
      assert x in e.authors.Values ==> x in d.authors.Values by {
        if x in e.authors.Values {
          var key :| key in e.authors && e.authors[key] == x;
          assert key in d.authors && d.authors[key] == x;
        }
      }
      assert x in e.authorSort.Values ==> x in d.authorSort.Values by {
        if x in e.authorSort.Values {
          var key :| key in e.authorSort && e.authorSort[key] == x;
          assert key in d.authorSort && d.authorSort[key] == x;
        }
      }
    }
  }

  /** The uuid cache maps every library uuid to the id of the last library book with that uuid. */
  lemma {:induction false} UuidCacheLast(lib: seq<LibraryBook>, u: string)
    ensures u in UuidCacheOf(lib) <==> exists k :: 0 <= k < |lib| && lib[k].uuid == u
    ensures u in UuidCacheOf(lib) ==>
              exists k :: 0 <= k < |lib| && lib[k].uuid == u && UuidCacheOf(lib)[u] == lib[k].id
                && (forall j :: k < j < |lib| ==> lib[j].uuid != u)
    decreases |lib|
  {
    if lib != [] {
      var pre := lib[..|lib| - 1];
      UuidCacheLast(pre, u);
      assert forall k :: 0 <= k < |pre| ==> lib[k] == pre[k];
      if lib[|lib| - 1].uuid != u && u in UuidCacheOf(lib) {
        var k :| 0 <= k < |pre| && pre[k].uuid == u && UuidCacheOf(pre)[u] == pre[k].id
                  && forall j :: k < j < |pre| ==> pre[j].uuid != u;
        assert lib[k] == pre[k];
      }
    }
  }

  /** The loop that builds both caches from the library. */
  method BuildLibraryCaches(lib: seq<LibraryBook>) returns (tc: TitleCache, uc: map<string, int>)
    ensures tc == TitleCacheOf(lib) && uc == UuidCacheOf(lib)
  {
    tc := map[];
    uc := map[];
    var i := 0;
    while i < |lib|
      invariant 0 <= i <= |lib|
      invariant tc == TitleCacheOf(lib[..i]) && uc == UuidCacheOf(lib[..i])
    {
      assert lib[..i + 1][..i] == lib[..i];
      tc := AddTitle(tc, lib[i]);
      uc := uc[lib[i].uuid := lib[i].id];
      i := i + 1;
    }
    assert lib[..i] == lib;
  }

  // ---------------------------------------------------------------- the matching cascade

  /** How a device book was found in the library. */
  datatype InLibrary = ByUuid | ByAppId | ByDbId | ByAuthor | ByAuthorSort

  datatype DeviceBook = DeviceBook(
    uuid: Option<string>, title: Option<string>, authors: seq<string>, authorSort: Option<string>,
    applicationId: Option<int>, dbId: Option<int>, lpath: string, inLibrary: Option<InLibrary>)

  /** `get_by_author`: the cleaned author text looked up among the authors, then among the author sorts. */
  function ByAuthorKey(d: TitleEntry, author: string): Option<(InLibrary, int)> {
    if author in d.authors then Some((ByAuthor, d.authors[author]))
    else if author in d.authorSort then Some((ByAuthorSort, d.authorSort[author]))
    else None
  }

  /** The first author, cleaned, that `get_by_author` finds. */
  function FirstAuthorMatch(d: TitleEntry, authors: seq<string>): Option<(InLibrary, int)> {
    if authors == [] then None
    else match ByAuthorKey(d, CleanString(Some(authors[0])))
      case Some(m) => Some(m)
      case None => FirstAuthorMatch(d, authors[1..])
  }

  /**
   * The cascade: an exact uuid; then, for a book whose cleaned title is in the
   * library, its application id, its own db id, all its authors together and
   * each of its authors in turn. The result is how it matched and the library id.
   */
  function MatchBook(b: DeviceBook, tc: TitleCache, uc: map<string, int>): (r: (Option<InLibrary>, Option<int>))
    ensures r.0.Some? <==> r.1.Some?
    ensures r.0 == Some(ByUuid) <==> b.uuid.Some? && b.uuid.value in uc
    ensures r.0.Some? && r.0 != Some(ByUuid) ==> CleanString(b.title) in tc
  {
    if b.uuid.Some? && b.uuid.value in uc then (Some(ByUuid), Some(uc[b.uuid.value]))
    else
      var key := CleanString(b.title);
      if key !in tc then (None, None)
      else
        var d := tc[key];
        if b.applicationId.Some? && b.applicationId.value in d.dbIds then (Some(ByAppId), b.applicationId)
        else if b.dbId.Some? && b.dbId.value in d.dbIds then (Some(ByDbId), b.dbId)
        else if b.authors == [] then (None, None)
        else
          FirstAuthorMatchSome(d, b.authors);
          match ByAuthorKey(d, CleanString(Some(Join(b.authors, " & "))))
          case Some((how, id)) => (Some(how), Some(id))
          case None =>
            match FirstAuthorMatch(d, b.authors)
            case Some((how, id)) => (Some(how), Some(id))
            case None => (None, None)
  }

  /** The device book after matching; books matched by uuid, application id or db id keep their author sort. */
  function Matched(b: DeviceBook, tc: TitleCache, uc: map<string, int>, sortOf: seq<string> -> string): DeviceBook {
    var (how, id) := MatchBook(b, tc, uc);
    var b' := b.(inLibrary := how, applicationId := id);
    if how in {Some(ByUuid), Some(ByAppId), Some(ByDbId)} then b'
    else if (b.authorSort.None? || b.authorSort.value == []) && b.authors != [] then b'.(authorSort := Some(sortOf(b.authors)))
    else b'
  }

  /** A book is matched exactly when it ends with an application id. */
  lemma MatchedIffId(b: DeviceBook, tc: TitleCache, uc: map<string, int>)
    ensures MatchBook(b, tc, uc).0.Some? <==> MatchBook(b, tc, uc).1.Some?
  {
    var key := CleanString(b.title);
    if !(b.uuid.Some? && b.uuid.value in uc) && key in tc {
      FirstAuthorMatchSome(tc[key], b.authors);
    }
  }

  lemma {:induction false} FirstAuthorMatchSome(d: TitleEntry, authors: seq<string>)
    ensures FirstAuthorMatch(d, authors).Some? ==> FirstAuthorMatch(d, authors).value.0 in {ByAuthor, ByAuthorSort}
    ensures FirstAuthorMatch(d, authors).Some? ==>
              FirstAuthorMatch(d, authors).value.1 in d.authors.Values || FirstAuthorMatch(d, authors).value.1 in d.authorSort.Values
    decreases |authors|
  {
    if authors != [] && ByAuthorKey(d, CleanString(Some(authors[0]))).None? {
      FirstAuthorMatchSome(d, authors[1..]);
    }
  }

  /** A uuid known to the library decides the match, whatever else the book says. */
  lemma UuidFirst(b: DeviceBook, tc: TitleCache, uc: map<string, int>)
    requires b.uuid.Some? && b.uuid.value in uc
    ensures MatchBook(b, tc, uc) == (Some(ByUuid), Some(uc[b.uuid.value]))
  {
  }

  /** A matched book's id comes from the uuid cache, or from the entry of its cleaned title. */
  lemma MatchSource(b: DeviceBook, tc: TitleCache, uc: map<string, int>)
    requires MatchBook(b, tc, uc).1.Some?
    ensures var (how, id) := MatchBook(b, tc, uc);
            if how == Some(ByUuid) then b.uuid.Some? && b.uuid.value in uc && id.value == uc[b.uuid.value]
            else
              var key := CleanString(b.title);
              key in tc && (id.value in tc[key].dbIds || id.value in tc[key].authors.Values || id.value in tc[key].authorSort.Values)
  {
    if !(b.uuid.Some? && b.uuid.value in uc) {
      var key := CleanString(b.title);
      FirstAuthorMatchSome(tc[key], b.authors);
    }
  }

  /** An id held under a title of the cache built from the library belongs to a library book with that cleaned title. */
  lemma TitleCacheHolds(lib: seq<LibraryBook>, t: string, x: int)
    requires t in TitleCacheOf(lib)
    requires var e := TitleCacheOf(lib)[t]; x in e.dbIds || x in e.authors.Values || x in e.authorSort.Values
    ensures exists k :: 0 <= k < |lib| && lib[k].id == x && CleanString(lib[k].title) == t
  {
    TitleCacheOfSound(lib);
  }

  /**
   * With caches built from the library, every book the cascade matches points
   * at a library book: by uuid at one with that uuid, otherwise at one whose
   * cleaned title is the device book's.
   */
  lemma MatchPointsIntoLibrary(b: DeviceBook, lib: seq<LibraryBook>)
    requires MatchBook(b, TitleCacheOf(lib), UuidCacheOf(lib)).1.Some?
    ensures var (how, id) := MatchBook(b, TitleCacheOf(lib), UuidCacheOf(lib));
            how == Some(ByUuid) ==> exists k :: 0 <= k < |lib| && lib[k].id == id.value && Some(lib[k].uuid) == b.uuid
    ensures var (how, id) := MatchBook(b, TitleCacheOf(lib), UuidCacheOf(lib));
            how != Some(ByUuid) ==> exists k :: 0 <= k < |lib| && lib[k].id == id.value && CleanString(lib[k].title) == CleanString(b.title)
  {
    var tc := TitleCacheOf(lib);
    var uc := UuidCacheOf(lib);
    var (how, id) := MatchBook(b, tc, uc);
    MatchSource(b, tc, uc);
    if how == Some(ByUuid) {
      UuidCacheLast(lib, b.uuid.value);
    } else {
      TitleCacheHolds(lib, CleanString(b.title), id.value);
    }
  }

  /** A device book whose cleaned title is not in the library is never matched except by uuid. */
  lemma UnknownTitleUnmatched(b: DeviceBook, lib: seq<LibraryBook>)
    requires !(b.uuid.Some? && b.uuid.value in UuidCacheOf(lib))
    requires forall k :: 0 <= k < |lib| ==> CleanString(lib[k].title) != CleanString(b.title)
    ensures MatchBook(b, TitleCacheOf(lib), UuidCacheOf(lib)) == (None, None)
  {
    var tc := TitleCacheOf(lib);
    var key := CleanString(b.title);
    assert key !in tc by {
      if key in tc {
        var x := TitleEntryWitness(lib, key);
        TitleCacheHolds(lib, key, x);
        assert false;
      }
    }
    NoEntryUnmatched(b, tc, UuidCacheOf(lib));
  }

  lemma NoEntryUnmatched(b: DeviceBook, tc: TitleCache, uc: map<string, int>)
    requires !(b.uuid.Some? && b.uuid.value in uc) && CleanString(b.title) !in tc
    ensures MatchBook(b, tc, uc) == (None, None)
  {
  }

  /** Every title the cache holds carries at least one id. */
  lemma {:induction false} TitleEntryWitness(lib: seq<LibraryBook>, t: string) returns (x: int)
    requires t in TitleCacheOf(lib)
    ensures x in TitleCacheOf(lib)[t].dbIds
    decreases |lib|
  {
    var pre := lib[..|lib| - 1];
    var b := lib[|lib| - 1];
    if t != CleanString(b.title) {
      x := TitleEntryWitness(pre, t);
    } else {
      x := b.id;
    }
  }

  // ---------------------------------------------------------------- completeness of the cascade

  /** No id the device book carries as its application id is an id of a library book with its cleaned title. */
  ghost predicate NoAppIdHit(b: DeviceBook, lib: seq<LibraryBook>) {
    b.applicationId.None? ||
    forall j :: 0 <= j < |lib| && CleanString(lib[j].title) == CleanString(b.title) ==> lib[j].id != b.applicationId.value
  }

  /** The same for the device book's own db id. */
  ghost predicate NoDbIdHit(b: DeviceBook, lib: seq<LibraryBook>) {
    b.dbId.None? ||
    forall j :: 0 <= j < |lib| && CleanString(lib[j].title) == CleanString(b.title) ==> lib[j].id != b.dbId.value
  }

  /**
   * A book without a known uuid whose application id is the id of a library
   * book with the same cleaned title is matched by application id.
   */
  lemma MatchByAppId(b: DeviceBook, lib: seq<LibraryBook>, k: int)
    requires !(b.uuid.Some? && b.uuid.value in UuidCacheOf(lib))
    requires 0 <= k < |lib| && CleanString(lib[k].title) == CleanString(b.title) && b.applicationId == Some(lib[k].id)
    ensures MatchBook(b, TitleCacheOf(lib), UuidCacheOf(lib)) == (Some(ByAppId), Some(lib[k].id))
  {
    TitleCacheOfSound(lib);
  }

  /**
   * Failing that, a db id that is the id of a library book with the same
   * cleaned title matches by db id.
   */
  lemma MatchByDbId(b: DeviceBook, lib: seq<LibraryBook>, k: int)
    requires !(b.uuid.Some? && b.uuid.value in UuidCacheOf(lib)) && NoAppIdHit(b, lib)
    requires 0 <= k < |lib| && CleanString(lib[k].title) == CleanString(b.title) && b.dbId == Some(lib[k].id)
    ensures MatchBook(b, TitleCacheOf(lib), UuidCacheOf(lib)) == (Some(ByDbId), Some(lib[k].id))
  {
    TitleCacheOfSound(lib);
    NoIdHitOutside(b, lib);
  }

  /** Without an id hit in the library, neither id is held under the book's title. */
  lemma NoIdHitOutside(b: DeviceBook, lib: seq<LibraryBook>)
    requires NoAppIdHit(b, lib) || NoDbIdHit(b, lib)
    requires CleanString(b.title) in TitleCacheOf(lib)
    ensures NoAppIdHit(b, lib) && b.applicationId.Some? ==>
              b.applicationId.value !in TitleCacheOf(lib)[CleanString(b.title)].dbIds
    ensures NoDbIdHit(b, lib) && b.dbId.Some? ==> b.dbId.value !in TitleCacheOf(lib)[CleanString(b.title)].dbIds
  {
    var key := CleanString(b.title);
    if NoAppIdHit(b, lib) && b.applicationId.Some? && b.applicationId.value in TitleCacheOf(lib)[key].dbIds {
      TitleCacheHolds(lib, key, b.applicationId.value);
    }
    if NoDbIdHit(b, lib) && b.dbId.Some? && b.dbId.value in TitleCacheOf(lib)[key].dbIds {
      TitleCacheHolds(lib, key, b.dbId.value);
    }
  }

  /**
   * `get_by_author` over the authors in turn finds something exactly when one
   * of them is known, and then what the first known author gives.
   */
  lemma {:induction false} FirstAuthorMatchComplete(d: TitleEntry, authors: seq<string>, i: int)
    requires 0 <= i < |authors| && ByAuthorKey(d, CleanString(Some(authors[i]))).Some?
    requires forall j :: 0 <= j < i ==> ByAuthorKey(d, CleanString(Some(authors[j]))).None?
    ensures FirstAuthorMatch(d, authors) == ByAuthorKey(d, CleanString(Some(authors[i])))
    decreases i
  {
    if i > 0 {
      var rest := authors[1..];
      FirstAuthorMatchSkip(d, authors);
      forall j | 0 <= j < i - 1 ensures ByAuthorKey(d, CleanString(Some(rest[j]))).None? {
        assert rest[j] == authors[j + 1];
      }
      assert rest[i - 1] == authors[i];
      FirstAuthorMatchComplete(d, rest, i - 1);
    }
  }

  /** An unknown first author is skipped. */
  lemma FirstAuthorMatchSkip(d: TitleEntry, authors: seq<string>)
    requires authors != [] && ByAuthorKey(d, CleanString(Some(authors[0]))).None?
    ensures FirstAuthorMatch(d, authors) == FirstAuthorMatch(d, authors[1..])
  {
  }

  /** Some author being known is enough for the author step to find a match. */
  lemma FirstAuthorMatchFound(d: TitleEntry, authors: seq<string>, i: int)
    requires 0 <= i < |authors| && ByAuthorKey(d, CleanString(Some(authors[i]))).Some?
    ensures FirstAuthorMatch(d, authors).Some?
  {
    var m := FirstKnownAuthor(d, authors, i);
    FirstAuthorMatchComplete(d, authors, m);
  }

  /** The position of the first known author, no later than a known one. */
  lemma {:induction false} FirstKnownAuthor(d: TitleEntry, authors: seq<string>, i: int) returns (m: int)
    requires 0 <= i < |authors| && ByAuthorKey(d, CleanString(Some(authors[i]))).Some?
    ensures 0 <= m <= i && ByAuthorKey(d, CleanString(Some(authors[m]))).Some?
    ensures forall j :: 0 <= j < m ==> ByAuthorKey(d, CleanString(Some(authors[j]))).None?
    decreases i
  {
    if i == 0 || forall j :: 0 <= j < i ==> ByAuthorKey(d, CleanString(Some(authors[j]))).None? {
      m := i;
    } else {
      var j :| 0 <= j < i && ByAuthorKey(d, CleanString(Some(authors[j]))).Some?;
      m := FirstKnownAuthor(d, authors, j);
    }
  }

  /**
   * With a title hit and no id hit, the joined authors are looked up first:
   * when they are known under the title, they decide.
   */
  lemma MatchByJoinedAuthors(b: DeviceBook, tc: TitleCache, uc: map<string, int>)
    requires !(b.uuid.Some? && b.uuid.value in uc)
    requires CleanString(b.title) in tc && b.authors != []
    requires var d := tc[CleanString(b.title)];
             !(b.applicationId.Some? && b.applicationId.value in d.dbIds) && !(b.dbId.Some? && b.dbId.value in d.dbIds)
    requires ByAuthorKey(tc[CleanString(b.title)], CleanString(Some(Join(b.authors, " & ")))).Some?
    ensures var m := ByAuthorKey(tc[CleanString(b.title)], CleanString(Some(Join(b.authors, " & ")))).value;
            MatchBook(b, tc, uc) == (Some(m.0), Some(m.1))
  {
  }

  /**
   * Otherwise the first author, in the book's order, that is known under the
   * title (as an author, else as an author sort) decides.
   */
  lemma MatchByFirstKnownAuthor(b: DeviceBook, tc: TitleCache, uc: map<string, int>, i: int)
    requires !(b.uuid.Some? && b.uuid.value in uc) && CleanString(b.title) in tc
    requires var d := tc[CleanString(b.title)];
             !(b.applicationId.Some? && b.applicationId.value in d.dbIds) && !(b.dbId.Some? && b.dbId.value in d.dbIds)
    requires ByAuthorKey(tc[CleanString(b.title)], CleanString(Some(Join(b.authors, " & ")))).None?
    requires 0 <= i < |b.authors| && ByAuthorKey(tc[CleanString(b.title)], CleanString(Some(b.authors[i]))).Some?
    requires forall j :: 0 <= j < i ==> ByAuthorKey(tc[CleanString(b.title)], CleanString(Some(b.authors[j]))).None?
    ensures var m := ByAuthorKey(tc[CleanString(b.title)], CleanString(Some(b.authors[i]))).value;
            MatchBook(b, tc, uc) == (Some(m.0), Some(m.1))
  {
    FirstAuthorMatchComplete(tc[CleanString(b.title)], b.authors, i);
  }

  /** Every library book's cleaned authors and author sort stay keys of its title's entry. */
  lemma {:induction false} TitleCacheAuthorsComplete(lib: seq<LibraryBook>, k: int)
    requires 0 <= k < |lib|
    ensures CleanString(lib[k].title) in TitleCacheOf(lib)
    ensures CleanString(lib[k].authors) != [] ==> CleanString(lib[k].authors) in TitleCacheOf(lib)[CleanString(lib[k].title)].authors
    ensures lib[k].authorSort.Some? && lib[k].authorSort.value != [] ==>
              CleanString(lib[k].authorSort) in TitleCacheOf(lib)[CleanString(lib[k].title)].authorSort
    decreases |lib|
  {
    var pre := lib[..|lib| - 1];
    if k < |lib| - 1 {
      assert lib[k] == pre[k];
      TitleCacheAuthorsComplete(pre, k);
      AddTitleKeeps(TitleCacheOf(pre), lib[|lib| - 1], lib[k]);
    } else {
      AddTitleHolds(TitleCacheOf(pre), lib[k]);
    }
  }

  /** The title cache holds a library book's cleaned title, and its non-empty cleaned authors and author sort under it. */
  ghost predicate HoldsBookKeys(tc: TitleCache, b: LibraryBook) {
    var title := CleanString(b.title);
    && title in tc
    && (CleanString(b.authors) != [] ==> CleanString(b.authors) in tc[title].authors)
    && (b.authorSort.Some? && b.authorSort.value != [] ==> CleanString(b.authorSort) in tc[title].authorSort)
  }

  lemma AddTitleHolds(tc: TitleCache, b: LibraryBook)
    ensures HoldsBookKeys(AddTitle(tc, b), b)
  {
  }

  /** Recording another book removes no key. */
  lemma AddTitleKeeps(tc: TitleCache, b: LibraryBook, c: LibraryBook)
    requires HoldsBookKeys(tc, c)
    ensures HoldsBookKeys(AddTitle(tc, b), c)
  {
  }

  /**
   * With a title hit and no id hit, a book one of whose authors is known
   * under its title is matched by author or by author sort.
   */
  lemma MatchByKnownAuthor(b: DeviceBook, tc: TitleCache, uc: map<string, int>, i: int)
    requires !(b.uuid.Some? && b.uuid.value in uc) && CleanString(b.title) in tc
    requires var d := tc[CleanString(b.title)];
             !(b.applicationId.Some? && b.applicationId.value in d.dbIds) && !(b.dbId.Some? && b.dbId.value in d.dbIds)
    requires 0 <= i < |b.authors| && ByAuthorKey(tc[CleanString(b.title)], CleanString(Some(b.authors[i]))).Some?
    ensures MatchBook(b, tc, uc).0 in {Some(ByAuthor), Some(ByAuthorSort)}
  {
    var d := tc[CleanString(b.title)];
    if ByAuthorKey(d, CleanString(Some(Join(b.authors, " & ")))).None? {
      FirstAuthorMatchFound(d, b.authors, i);
      FirstAuthorMatchSome(d, b.authors);
    }
  }

  /**
   * With caches built from the library: a device book without a uuid or id
   * hit, one of whose authors cleans to the authors of a library book with
   * its cleaned title, is matched by author or by author sort.
   */
  lemma MatchByLibraryAuthor(b: DeviceBook, lib: seq<LibraryBook>, k: int, i: int)
    requires !(b.uuid.Some? && b.uuid.value in UuidCacheOf(lib)) && NoAppIdHit(b, lib) && NoDbIdHit(b, lib)
    requires 0 <= k < |lib| && CleanString(lib[k].title) == CleanString(b.title)
    requires 0 <= i < |b.authors| && CleanString(Some(b.authors[i])) == CleanString(lib[k].authors) != []
    ensures MatchBook(b, TitleCacheOf(lib), UuidCacheOf(lib)).0 in {Some(ByAuthor), Some(ByAuthorSort)}
  {
    var tc := TitleCacheOf(lib);
    TitleCacheAuthorsComplete(lib, k);
    NoIdHitOutside(b, lib);
    MatchByKnownAuthor(b, tc, UuidCacheOf(lib), i);
  }

  // ---------------------------------------------------------------- the as-written uuid lookup

  datatype Failure = UnboundLocalError

  /**
   * The uuid step as written: the membership test reads the cache kept on the
   * object, but the id is read from a local variable that exists only when the
   * caches were rebuilt during this call.
   */
  function UuidStepAsWritten(b: DeviceBook, uc: map<string, int>, rebuilt: bool): (r: Result<Option<int>, Failure>)
    ensures r.Err? <==> !rebuilt && b.uuid.Some? && b.uuid.value in uc
    ensures r.Ok? && r.value.Some? ==> b.uuid.Some? && b.uuid.value in uc && r.value.value == uc[b.uuid.value]
  {
    if b.uuid.Some? && b.uuid.value in uc then
      if rebuilt then Ok(Some(uc[b.uuid.value])) else Err(UnboundLocalError)
    else Ok(None)
  }

  /** A call that reuses the caches fails on the first device book whose uuid the library knows. */
  lemma UuidStepFailsWithoutRebuild()
    ensures var b := DeviceBook(Some("u"), None, [], None, None, None, [], None);
            UuidStepAsWritten(b, map["u" := 1], false) == Err(UnboundLocalError)
    ensures MatchBook(DeviceBook(Some("u"), None, [], None, None, None, [], None), map[], map["u" := 1]) == (Some(ByUuid), Some(1))
  {
  }

  /** Where the as-written step does not fail it agrees with the cascade, which reads the cache kept on the object. */
  lemma UuidStepAgrees(b: DeviceBook, tc: TitleCache, uc: map<string, int>, rebuilt: bool)
    requires UuidStepAsWritten(b, uc, rebuilt).Ok?
    ensures UuidStepAsWritten(b, uc, rebuilt).value.Some? ==>
              MatchBook(b, tc, uc) == (Some(ByUuid), UuidStepAsWritten(b, uc, rebuilt).value)
    ensures rebuilt ==> UuidStepAsWritten(b, uc, rebuilt).Ok?
  {
  }

  // ---------------------------------------------------------------- book locations

  /** The application id of a book, as a set of zero or one ids. */
  function IdOf(b: DeviceBook): set<int> {
    if b.applicationId.Some? then {b.applicationId.value} else {}
  }

  function IdsOf(books: seq<DeviceBook>): set<int> {
    if books == [] then {} else IdsOf(books[..|books| - 1]) + IdOf(books[|books| - 1])
  }

  /** The number of books with application id `x`. */
  function Occurrences(books: seq<DeviceBook>, x: int): nat {
    if books == [] then 0 else Occurrences(books[..|books| - 1], x) + (if books[|books| - 1].applicationId == Some(x) then 1 else 0)
  }

  /** The non-empty device paths of the books with application id `x`. */
  function PathsOf(books: seq<DeviceBook>, x: int): set<string> {
    if books == [] then {}
    else
      var b := books[|books| - 1];
      PathsOf(books[..|books| - 1], x) + (if b.applicationId == Some(x) && b.lpath != [] then {b.lpath} else {})
  }

  function CountStep(m: map<int, nat>, b: DeviceBook): map<int, nat> {
    if b.applicationId.Some? then
      var x := b.applicationId.value;
      m[x := (if x in m then m[x] else 0) + 1]
    else m
  }

  function PathStep(m: map<int, set<string>>, b: DeviceBook): map<int, set<string>> {
    if b.applicationId.Some? then
      var x := b.applicationId.value;
      m[x := (if x in m then m[x] else {}) + (if b.lpath != [] then {b.lpath} else {})]
    else m
  }

  function CountsOf(books: seq<DeviceBook>): map<int, nat> {
    if books == [] then map[] else CountStep(CountsOf(books[..|books| - 1]), books[|books| - 1])
  }

  function PathMapOf(books: seq<DeviceBook>): map<int, set<string>> {
    if books == [] then map[] else PathStep(PathMapOf(books[..|books| - 1]), books[|books| - 1])
  }

  /** All the books of the lists, in order. */
  function Flatten(lists: seq<seq<DeviceBook>>): seq<DeviceBook> {
    if lists == [] then [] else Flatten(lists[..|lists| - 1]) + lists[|lists| - 1]
  }

  /** The count and path caches hold, for each id on the device, its number of books and their paths. */
  lemma {:induction false} CachesMeaning(books: seq<DeviceBook>, x: int)
    ensures x in CountsOf(books) <==> x in IdsOf(books)
    ensures x in PathMapOf(books) <==> x in IdsOf(books)
    ensures x in CountsOf(books) ==> CountsOf(books)[x] == Occurrences(books, x)
    ensures x in PathMapOf(books) ==> PathMapOf(books)[x] == PathsOf(books, x)
    ensures x !in IdsOf(books) ==> Occurrences(books, x) == 0 && PathsOf(books, x) == {}
    decreases |books|
  {
    if books != [] {
      CachesMeaning(books[..|books| - 1], x);
    }
  }

  /** The ids of a list are the application ids of its books. */
  lemma {:induction false} IdsOfMeaning(books: seq<DeviceBook>, x: int)
    ensures x in IdsOf(books) <==> exists k :: 0 <= k < |books| && books[k].applicationId == Some(x)
    decreases |books|
  {
    if books != [] {
      var pre := books[..|books| - 1];
      IdsOfMeaning(pre, x);
      assert forall k :: 0 <= k < |pre| ==> books[k] == pre[k];
      if x in IdsOf(pre) {
        var k :| 0 <= k < |pre| && pre[k].applicationId == Some(x);
        assert books[k] == pre[k];
      }
    }
  }

  lemma {:induction false} IdsOfAppend(a: seq<DeviceBook>, b: seq<DeviceBook>)
    ensures IdsOf(a + b) == IdsOf(a) + IdsOf(b)
    decreases |b|
  {
    if b == [] {
      assert a + b == a;
    } else {
      assert (a + b)[..|a + b| - 1] == a + b[..|b| - 1];
      IdsOfAppend(a, b[..|b| - 1]);
    }
  }

  /** The path cache update as the loop does it: an empty entry first, then the path when there is one. */
  lemma PathUpdate(pm: map<int, set<string>>, b: DeviceBook, pm2: map<int, set<string>>)
    requires b.applicationId.Some?
    requires var id := b.applicationId.value;
             var pm1 := if id !in pm then pm[id := {}] else pm;
             pm2 == if b.lpath != [] then pm1[id := pm1[id] + {b.lpath}] else pm1
    ensures pm2 == PathStep(pm, b)
  {
    var id := b.applicationId.value;
    var add: set<string> := if b.lpath != [] then {b.lpath} else {};
    var base := if id in pm then pm[id] else {};
    assert PathStep(pm, b) == pm[id := base + add];
    if b.lpath == [] {
      assert add == {} && base + add == base;
      if id in pm {
        assert pm[id := base] == pm;
      }
    }
  }

  lemma CachesStep(s: seq<DeviceBook>, b: DeviceBook)
    ensures CountsOf(s + [b]) == CountStep(CountsOf(s), b) && PathMapOf(s + [b]) == PathStep(PathMapOf(s), b)
    ensures IdsOf(s + [b]) == IdsOf(s) + IdOf(b)
  {
    assert (s + [b])[..|s|] == s;
  }

  lemma ListStep(before: seq<DeviceBook>, list: seq<DeviceBook>, k: nat)
    requires k < |list|
    ensures CountsOf(before + list[..k + 1]) == CountStep(CountsOf(before + list[..k]), list[k])
    ensures PathMapOf(before + list[..k + 1]) == PathStep(PathMapOf(before + list[..k]), list[k])
    ensures IdsOf(list[..k + 1]) == IdsOf(list[..k]) + IdOf(list[k])
  {
    assert list[..k + 1][..k] == list[..k];
    assert before + list[..k + 1] == (before + list[..k]) + [list[k]];
    CachesStep(before + list[..k], list[k]);
  }

  /** What `book_on_device` reports: presence in each of the three lists, the count and the paths. */
  datatype Location = Location(onDevice: seq<bool>, count: nat, paths: set<string>)

  const NotOnDevice: Location := Location([false, false, false], 0, {})

  /** The id caches for the three lists: one set of application ids per list. */
  function IdCacheOf(lists: seq<seq<DeviceBook>>): (r: seq<set<int>>)
    ensures |r| == |lists| && forall i :: 0 <= i < |lists| ==> r[i] == IdsOf(lists[i])
  {
    seq(|lists|, i requires 0 <= i < |lists| => IdsOf(lists[i]))
  }

  /** Whether `x` is in one of the first `n` id sets. */
  function FoundIn(cache: seq<set<int>>, x: int, n: nat): (r: bool)
    requires n <= |cache|
    ensures r <==> exists i :: 0 <= i < n && x in cache[i]
  {
    n > 0 && (FoundIn(cache, x, n - 1) || x in cache[n - 1])
  }

  /** The location read from the caches. */
  function LocationFrom(cache: seq<set<int>>, counts: map<int, nat>, paths: map<int, set<string>>, x: int): Location
    requires |cache| == 3
    requires forall i :: 0 <= i < 3 && x in cache[i] ==> x in paths
  {
    if FoundIn(cache, x, 3) then
      Location(seq(3, i requires 0 <= i < 3 => x in cache[i]), if x in counts then counts[x] else 0, paths[x])
    else NotOnDevice
  }

  lemma {:induction false} FoundInUnion(lists: seq<seq<DeviceBook>>, x: int, n: nat)
    requires n <= |lists|
    ensures FoundIn(IdCacheOf(lists), x, n) <==> x in IdsOf(Flatten(lists[..n]))
    decreases n
  {
    if n > 0 {
      FoundInUnion(lists, x, n - 1);
      assert lists[..n][..n - 1] == lists[..n - 1];
      IdsOfAppend(Flatten(lists[..n - 1]), lists[n - 1]);
    }
  }

  /**
   * With caches freshly built from the three lists, a book's location is: in
   * list i exactly when a book there carries its id, the count of such books
   * over all lists, and their non-empty paths.
   */
  lemma FreshLocation(lists: seq<seq<DeviceBook>>, x: int)
    requires |lists| == 3
    requires forall i :: 0 <= i < 3 && x in IdCacheOf(lists)[i] ==> x in PathMapOf(Flatten(lists))
    ensures var loc := LocationFrom(IdCacheOf(lists), CountsOf(Flatten(lists)), PathMapOf(Flatten(lists)), x);
            |loc.onDevice| == 3
            && (forall i :: 0 <= i < 3 ==> (loc.onDevice[i] <==> exists k :: 0 <= k < |lists[i]| && lists[i][k].applicationId == Some(x)))
            && loc.count == Occurrences(Flatten(lists), x)
            && loc.paths == PathsOf(Flatten(lists), x)
  {
    var all := Flatten(lists);
    FoundInUnion(lists, x, 3);
    assert lists[..3] == lists;
    CachesMeaning(all, x);
    forall i | 0 <= i < 3 {
      IdsOfMeaning(lists[i], x);
    }
  }

  /** Ids of the lists are held by the path cache built from them. */
  lemma IdsInPathMap(lists: seq<seq<DeviceBook>>, x: int, i: nat)
    requires i < |lists| && x in IdsOf(lists[i])
    ensures x in PathMapOf(Flatten(lists))
  {
    FlattenHas(lists, i);
    IdsOfAppend(Flatten(lists[..i + 1]), Flatten(lists[i + 1..]));
    FlattenSplit(lists, i + 1);
    CachesMeaning(Flatten(lists), x);
    IdsOfAppend(Flatten(lists[..i]), lists[i]);
  }

  lemma FlattenHas(lists: seq<seq<DeviceBook>>, i: nat)
    requires i < |lists|
    ensures Flatten(lists[..i + 1]) == Flatten(lists[..i]) + lists[i]
  {
    assert lists[..i + 1][..i] == lists[..i];
  }

  lemma {:induction false} FlattenSplit(lists: seq<seq<DeviceBook>>, n: nat)
    requires n <= |lists|
    ensures Flatten(lists) == Flatten(lists[..n]) + Flatten(lists[n..])
    decreases |lists| - n
  {
    if n == |lists| {
      assert lists[..n] == lists && lists[n..] == [];
    } else {
      FlattenSplit(lists, n + 1);
      FlattenHas(lists, n);
      FlattenCons(lists[n], lists[n + 1..]);
      assert lists[n..] == [lists[n]] + lists[n + 1..];
    }
  }

  lemma {:induction false} FlattenCons(h: seq<DeviceBook>, t: seq<seq<DeviceBook>>)
    ensures Flatten([h] + t) == h + Flatten(t)
    decreases |t|
  {
    if t == [] {
      assert [h] + t == [h];
      assert [h][..0] == [];
    } else {
      var l := [h] + t;
      assert l[..|l| - 1] == [h] + t[..|t| - 1];
      FlattenCons(h, t[..|t| - 1]);
    }
  }

  // ---------------------------------------------------------------- the GUI's device state

  class DeviceMixin {
    var titleCache: Option<TitleCache>
    var uuidCache: Option<map<string, int>>
    var bookIdCache: Option<seq<set<int>>>
    var bookIdCounts: map<int, nat>
    var uuidPathMap: map<int, set<string>>

    /** The id caches cover the three lists, and every cached id has a path entry. */
    ghost predicate Valid()
      reads this
    {
      bookIdCache.Some? ==>
        |bookIdCache.value| == 3 && forall i, x :: 0 <= i < 3 && x in bookIdCache.value[i] ==> x in uuidPathMap
    }

    constructor ()
      ensures Valid()
      ensures titleCache == None && uuidCache == None && bookIdCache == None
      ensures bookIdCounts == map[] && uuidPathMap == map[]
    {
      titleCache := None;
      uuidCache := None;
      bookIdCache := None;
      bookIdCounts := map[];
      uuidPathMap := map[];
    }

    /**
     * `book_on_device`: a reset clears the location caches; without a connected
     * device or a library cache the book is nowhere; otherwise the caches are
     * built from the lists when empty, and the location is read from them.
     */
    method BookOnDevice(x: int, reset: bool, connected: bool, lists: seq<seq<DeviceBook>>) returns (r: Option<Location>)
      requires Valid() && |lists| == 3
      modifies this
      ensures Valid()
      ensures titleCache == old(titleCache) && uuidCache == old(uuidCache)
      ensures reset ==> r == None && bookIdCache == None && bookIdCounts == map[] && uuidPathMap == map[]
      ensures !reset && (!connected || old(uuidCache).None?) ==>
                r == Some(NotOnDevice) && bookIdCache == old(bookIdCache)
                && bookIdCounts == old(bookIdCounts) && uuidPathMap == old(uuidPathMap)
      ensures !reset && connected && old(uuidCache).Some? && old(bookIdCache).None? ==>
                bookIdCache == Some(IdCacheOf(lists)) && bookIdCounts == CountsOf(Flatten(lists))
                && uuidPathMap == PathMapOf(Flatten(lists))
      ensures !reset && connected && old(uuidCache).Some? && old(bookIdCache).Some? ==>
                bookIdCache == old(bookIdCache) && bookIdCounts == old(bookIdCounts) && uuidPathMap == old(uuidPathMap)
      ensures !reset && connected && old(uuidCache).Some? ==>
                bookIdCache.Some? && r == Some(LocationFrom(bookIdCache.value, bookIdCounts, uuidPathMap, x))
    {
      if reset {
        bookIdCache := None;
        bookIdCounts := map[];
        uuidPathMap := map[];
        return None;
      }
      if !connected || uuidCache.None? {
        return Some(NotOnDevice);
      }
      if bookIdCache.None? {
        BuildIdCaches(lists);
      }
      var loc := ReadLocation(bookIdCache.value, bookIdCounts, uuidPathMap, x);
      r := Some(loc);
    }

    /** Fills the three caches from the lists, book by book. */
    method BuildIdCaches(lists: seq<seq<DeviceBook>>)
      requires |lists| == 3
      modifies this
      ensures Valid()
      ensures bookIdCache == Some(IdCacheOf(lists)) && bookIdCounts == CountsOf(Flatten(lists))
      ensures uuidPathMap == PathMapOf(Flatten(lists))
      ensures titleCache == old(titleCache) && uuidCache == old(uuidCache)
    {
      var cache: seq<set<int>> := [];
      bookIdCounts := map[];
      uuidPathMap := map[];
      var i := 0;
      while i < |lists|
        invariant 0 <= i <= |lists| && |cache| == i
        invariant forall j :: 0 <= j < i ==> cache[j] == IdsOf(lists[j])
        invariant bookIdCounts == CountsOf(Flatten(lists[..i])) && uuidPathMap == PathMapOf(Flatten(lists[..i]))
        invariant titleCache == old(titleCache) && uuidCache == old(uuidCache)
      {
        var ids := AddList(lists[i], Flatten(lists[..i]));
        FlattenHas(lists, i);
        cache := cache + [ids];
        i := i + 1;
      }
      assert lists[..i] == lists;
      assert cache == IdCacheOf(lists);
      bookIdCache := Some(cache);
      forall j, y | 0 <= j < 3 && y in cache[j] ensures y in uuidPathMap {
        IdsInPathMap(lists, y, j);
      }
    }

    /** Adds one list's books to the count and path caches, returning its id set. */
    method AddList(list: seq<DeviceBook>, ghost before: seq<DeviceBook>) returns (ids: set<int>)
      requires bookIdCounts == CountsOf(before) && uuidPathMap == PathMapOf(before)
      modifies this
      ensures ids == IdsOf(list)
      ensures bookIdCounts == CountsOf(before + list) && uuidPathMap == PathMapOf(before + list)
      ensures titleCache == old(titleCache) && uuidCache == old(uuidCache) && bookIdCache == old(bookIdCache)
    {
      ids := {};
      var counts := bookIdCounts;
      var paths := uuidPathMap;
      var k := 0;
      assert before + list[..0] == before;
      while k < |list|
        invariant 0 <= k <= |list|
        invariant ids == IdsOf(list[..k])
        invariant counts == CountsOf(before + list[..k]) && paths == PathMapOf(before + list[..k])
        modifies {}
      {
        var b := list[k];
        ListStep(before, list, k);
        ghost var pm := paths;
        if b.applicationId.Some? {
          var id := b.applicationId.value;
          ids := ids + {id};
          if id !in paths {
            paths := paths[id := {}];
          }
          if b.lpath != [] {
            paths := paths[id := paths[id] + {b.lpath}];
          }
          var c := if id in counts then counts[id] else 0;
          counts := counts[id := c + 1];
          PathUpdate(pm, b, paths);
        }
        k := k + 1;
      }
      assert list[..k] == list;
      bookIdCounts := counts;
      uuidPathMap := paths;
    }

    /** Subsequently, the location is read from the caches, list by list. */
    static method ReadLocation(cache: seq<set<int>>, counts: map<int, nat>, paths: map<int, set<string>>, x: int)
      returns (loc: Location)
      requires |cache| == 3 && forall i :: 0 <= i < 3 && x in cache[i] ==> x in paths
      ensures loc == LocationFrom(cache, counts, paths, x)
    {
      var onDevice := [false, false, false];
      var count := 0;
      var ps: set<string> := {};
      var i := 0;
      while i < 3
        invariant 0 <= i <= 3 && |onDevice| == 3
        invariant forall j :: 0 <= j < i ==> onDevice[j] == (x in cache[j])
        invariant forall j :: i <= j < 3 ==> !onDevice[j]
        invariant FoundIn(cache, x, i) ==> count == (if x in counts then counts[x] else 0) && ps == paths[x]
        invariant !FoundIn(cache, x, i) ==> count == 0 && ps == {}
      {
        if x in cache[i] {
          onDevice := onDevice[i := true];
          count := if x in counts then counts[x] else 0;
          ps := ps + paths[x];
        }
        i := i + 1;
      }
      if FoundIn(cache, x, 3) {
        assert onDevice == seq(3, i requires 0 <= i < 3 => x in cache[i]);
      } else {
        assert onDevice == [false, false, false];
      }
      loc := Location(onDevice, count, ps);
    }

    /**
     * The matching pass of `set_books_in_library`: nothing without a connected
     * device or without a library view (`haveLibrary`); the library caches are
     * rebuilt on a reset or when missing; then every book of every list is
     * matched in place. The answer is whether the metadata is to be sent:
     * `manage_device_metadata` is `on_connect` (`onConnect`) or `forceSend`.
     */
    method SetBooksInLibrary(connected: bool, haveLibrary: bool, reset: bool, lib: seq<LibraryBook>,
                             lists: seq<array<DeviceBook>>, sortOf: seq<string> -> string,
                             onConnect: bool, forceSend: bool) returns (r: bool)
      requires forall i, j :: 0 <= i < j < |lists| ==> lists[i] != lists[j]
      requires titleCache.Some? <==> uuidCache.Some?
      modifies this, set l | l in lists
      ensures titleCache.Some? <==> uuidCache.Some?
      ensures bookIdCache == old(bookIdCache) && bookIdCounts == old(bookIdCounts) && uuidPathMap == old(uuidPathMap)
      ensures r == (connected && haveLibrary && (onConnect || forceSend))
      ensures !(connected && haveLibrary) ==>
                titleCache == old(titleCache) && uuidCache == old(uuidCache)
                && (forall l :: l in lists ==> l[..] == old(l[..]))
      ensures connected && haveLibrary && (reset || old(titleCache).None?) ==>
                titleCache == Some(TitleCacheOf(lib)) && uuidCache == Some(UuidCacheOf(lib))
      ensures connected && haveLibrary && !(reset || old(titleCache).None?) ==>
                titleCache == old(titleCache) && uuidCache == old(uuidCache)
      ensures connected && haveLibrary ==> titleCache.Some? && forall l :: l in lists ==>
                forall k :: 0 <= k < l.Length ==>
                  l[k] == Matched(old(l[k]), titleCache.value, uuidCache.value, sortOf)
    {
      if !connected || !haveLibrary {
        return false;
      }
      var updateMetadata := onConnect || forceSend;
      if reset || titleCache.None? {
        var tc, uc := BuildLibraryCaches(lib);
        titleCache := Some(tc);
        uuidCache := Some(uc);
      }
      var tc := titleCache.value;
      var uc := uuidCache.value;
      var i := 0;
      while i < |lists|
        invariant 0 <= i <= |lists|
        invariant titleCache == Some(tc) && uuidCache == Some(uc)
        invariant bookIdCache == old(bookIdCache) && bookIdCounts == old(bookIdCounts) && uuidPathMap == old(uuidPathMap)
        invariant forall j :: 0 <= j < i ==> forall k :: 0 <= k < lists[j].Length ==>
                    lists[j][k] == Matched(old(lists[j][k]), tc, uc, sortOf)
        invariant forall j :: i <= j < |lists| ==> lists[j][..] == old(lists[j][..])
      {
        MatchBooklist(lists[i], tc, uc, sortOf);
        i := i + 1;
      }
      forall l | l in lists ensures forall k :: 0 <= k < l.Length ==> l[k] == Matched(old(l[k]), tc, uc, sortOf) {
        var j :| 0 <= j < |lists| && lists[j] == l;
      }
      r := updateMetadata;
    }
  }

  /** Matches every book of one list in place. */
  method MatchBooklist(books: array<DeviceBook>, tc: TitleCache, uc: map<string, int>, sortOf: seq<string> -> string)
    modifies books
    ensures forall k :: 0 <= k < books.Length ==> books[k] == Matched(old(books[k]), tc, uc, sortOf)
  {
    ghost var before := books[..];
    var k := 0;
    while k < books.Length
      invariant 0 <= k <= books.Length
      invariant forall j :: 0 <= j < k ==> books[j] == Matched(before[j], tc, uc, sortOf)
      invariant forall j :: k <= j < books.Length ==> books[j] == before[j]
    {
      books[k] := Matched(books[k], tc, uc, sortOf);
      k := k + 1;
    }
  }
}
