/**
 * Decisions of the main window: the registries of interface actions and
 * stores (one plugin per name, the higher priority wins), the draining of
 * change notifications from the content server, the `calibre://` URL actions,
 * the view and page shown for a location, the window title and the guard that
 * makes quitting happen once.
 */
module MainWindow {
  import opened Wrappers
  import opened Strings
  import opened OrderedDicts
  import PosixPath

  // ---------------------------------------------------------------- plugin registries

  /** A loaded interface action or store plugin. */
  datatype Plugin = Plugin(name: string, priority: int, origin: string)

  type Registry = ODict<string, Plugin>

  /** `add_iaction` / `add_istore`: a plugin takes a name's place when its priority is at least the holder's. */
  function Registered(reg: Registry, p: Plugin): Registry {
    match Lookup(reg, p.name)
    case Some(held) => if p.priority >= held.priority then Put(reg, p.name, p) else reg
    case None => Put(reg, p.name, p)
  }

  /** After registering, the name is held by the plugin of higher priority (the newcomer on a tie); other names are untouched. */
  lemma RegisteredLookup(reg: Registry, p: Plugin, name: string)
    ensures Lookup(Registered(reg, p), name) ==
      if name != p.name then Lookup(reg, name)
      else if Lookup(reg, name).Some? && Lookup(reg, name).value.priority > p.priority then Lookup(reg, name)
      else Some(p)
  {
    PutLookup(reg, p.name, p, name);
  }

  /** Registering keeps the order of the names and adds a new name last, so each name is held once. */
  lemma RegisteredKeys(reg: Registry, p: Plugin)
    ensures Keys(Registered(reg, p)) == if HasKey(reg, p.name) then Keys(reg) else Keys(reg) + [p.name]
  {
    PutKeys(reg, p.name, p);
  }

  /** A plugin of lower priority than the holder of its name changes nothing. */
  lemma RegisteredLower(reg: Registry, p: Plugin)
    requires Lookup(reg, p.name).Some? && Lookup(reg, p.name).value.priority > p.priority
    ensures Registered(reg, p) == reg
  {
  }

  // ---------------------------------------------------------------- the window's state

  /** A change notification from the content server: the library it is about and the event. */
  datatype ServerChange = ServerChange(libraryPath: string, event: string)

  /** The events of the queued notifications that are about the GUI's library, in queue order. */
  function GuiEvents(queue: seq<ServerChange>, isGuiLibrary: string -> bool): seq<string> {
    if queue == [] then []
    else
      var last := queue[|queue| - 1];
      GuiEvents(queue[..|queue| - 1], isGuiLibrary) + (if isGuiLibrary(last.libraryPath) then [last.event] else [])
  }

  /** Every event passed on is the event of a queued notification about the GUI's library, and each such one is passed on. */
  lemma {:induction false} GuiEventsExactly(queue: seq<ServerChange>, isGuiLibrary: string -> bool, e: string)
    ensures e in GuiEvents(queue, isGuiLibrary) <==>
              exists k :: 0 <= k < |queue| && queue[k].event == e && isGuiLibrary(queue[k].libraryPath)
    decreases |queue|
  {
    if queue != [] {
      var pre := queue[..|queue| - 1];
      GuiEventsExactly(pre, isGuiLibrary, e);
      assert forall k :: 0 <= k < |pre| ==> queue[k] == pre[k];
      if e in GuiEvents(pre, isGuiLibrary) {
        var k :| 0 <= k < |pre| && pre[k].event == e && isGuiLibrary(pre[k].libraryPath);
        assert queue[k] == pre[k];
      }
    }
  }

  class Window {
    var iactions: Registry
    var istores: Registry
    var serverChanges: seq<ServerChange>
    /** The batches of events handed to the change handler, in order. */
    var handledChanges: seq<seq<string>>
    var shuttingDown: bool
    var restartAfterQuit: bool
    var exitRequested: bool

    constructor ()
      ensures iactions == [] && istores == [] && serverChanges == [] && handledChanges == []
      ensures !shuttingDown && !restartAfterQuit && !exitRequested
    {
      iactions := [];
      istores := [];
      serverChanges := [];
      handledChanges := [];
      shuttingDown := false;
      restartAfterQuit := false;
      exitRequested := false;
    }

    method AddIAction(ac: Plugin)
      modifies this
      ensures iactions == Registered(old(iactions), ac)
      ensures istores == old(istores) && serverChanges == old(serverChanges) && handledChanges == old(handledChanges)
      ensures shuttingDown == old(shuttingDown) && restartAfterQuit == old(restartAfterQuit) && exitRequested == old(exitRequested)
    {
      var held := Lookup(iactions, ac.name);
      if held.Some? {
        if ac.priority >= held.value.priority {
          iactions := Put(iactions, ac.name, ac);
        }
      } else {
        iactions := Put(iactions, ac.name, ac);
      }
    }

    method AddIStore(st: Plugin)
      modifies this
      ensures istores == Registered(old(istores), st)
      ensures iactions == old(iactions) && serverChanges == old(serverChanges) && handledChanges == old(handledChanges)
      ensures shuttingDown == old(shuttingDown) && restartAfterQuit == old(restartAfterQuit) && exitRequested == old(exitRequested)
    {
      var held := Lookup(istores, st.name);
      if held.Some? {
        if st.priority >= held.value.priority {
          istores := Put(istores, st.name, st);
        }
      } else {
        istores := Put(istores, st.name, st);
      }
    }

    /**
     * `handle_changes_from_server_debounced`: nothing while shutting down;
     * otherwise the whole queue is drained and the events about the GUI's
     * library, if any, are handled as one batch.
     */
    method HandleChangesFromServerDebounced(isGuiLibrary: string -> bool)
      modifies this
      ensures old(shuttingDown) ==> serverChanges == old(serverChanges) && handledChanges == old(handledChanges)
      ensures !old(shuttingDown) ==> serverChanges == []
      ensures !old(shuttingDown) ==>
                var batch := GuiEvents(old(serverChanges), isGuiLibrary);
                handledChanges == old(handledChanges) + (if batch != [] then [batch] else [])
      ensures iactions == old(iactions) && istores == old(istores)
      ensures shuttingDown == old(shuttingDown) && restartAfterQuit == old(restartAfterQuit) && exitRequested == old(exitRequested)
    {
      if shuttingDown {
        return;
      }
      ghost var queued := serverChanges;
      var changes: seq<string> := [];
      ghost var taken := 0;
      while serverChanges != []
        invariant 0 <= taken <= |queued| && serverChanges == queued[taken..]
        invariant changes == GuiEvents(queued[..taken], isGuiLibrary)
        invariant iactions == old(iactions) && istores == old(istores) && handledChanges == old(handledChanges)
        invariant shuttingDown == old(shuttingDown) && restartAfterQuit == old(restartAfterQuit)
        invariant exitRequested == old(exitRequested)
        decreases |serverChanges|
      {
        var change := serverChanges[0];
        serverChanges := serverChanges[1..];
        assert queued[..taken + 1] == queued[..taken] + [change];
        assert queued[..taken + 1][..taken] == queued[..taken];
        if isGuiLibrary(change.libraryPath) {
          changes := changes + [change.event];
        }
        taken := taken + 1;
      }
      assert queued[..taken] == queued;
      if changes != [] {
        handledChanges := handledChanges + [changes];
      }
    }

    /** `quit`: nothing while shutting down or when the user declines; otherwise shut down and exit once. */
    method Quit(restart: bool, confirmQuit: bool, userConfirms: bool)
      modifies this
      ensures old(shuttingDown) || (confirmQuit && !userConfirms) ==>
                shuttingDown == old(shuttingDown) && restartAfterQuit == old(restartAfterQuit) && exitRequested == old(exitRequested)
      ensures !(old(shuttingDown) || (confirmQuit && !userConfirms)) ==>
                shuttingDown && restartAfterQuit == restart && exitRequested
      ensures iactions == old(iactions) && istores == old(istores)
      ensures serverChanges == old(serverChanges) && handledChanges == old(handledChanges)
    {
      if shuttingDown {
        return;
      }
      if confirmQuit && !userConfirms {
        return;
      }
      restartAfterQuit := restart;
      shuttingDown := true;
      exitRequested := true;
    }
  }

  // ---------------------------------------------------------------- calibre:// URL actions

  datatype Failure = ValueError

  /** `bytes.fromhex(h).decode('utf-8')`. */
  function HexText(h: string): Option<string> {
    match FromHex(h)
    case None => None
    case Some(b) => Utf8Decode(b)
  }

  /** `decode_library_id`: `_` is the server's library id (or stays `_`), `_hex_-…` is hex-encoded UTF-8, anything else is itself. */
  function DecodeLibraryId(x: string, serverLibraryId: Option<string>): (r: Result<string, Failure>)
    ensures r.Err? ==> StartsWith(x, "_hex_-")
    ensures r.Ok? && x != "_" && StartsWith(x, "_hex_-") ==> HexText(x[6..]) == Some(r.value)
    ensures r.Ok? && r.value != x ==> x == "_" || StartsWith(x, "_hex_-")
    ensures x == "_" ==> r.Ok? && (r.value == "_" || serverLibraryId == Some(r.value))
  {
    if x == "_" then Ok(if serverLibraryId.Some? && serverLibraryId.value != [] then serverLibraryId.value else "_")
    else if StartsWith(x, "_hex_-") then
      match HexText(x[6..])
      case None => Err(ValueError)
      case Some(s) => Ok(s)
    else Ok(x)
  }

  /** An ASCII library id written in hex comes back unchanged. */
  lemma DecodeHexLibraryId(s: string, serverLibraryId: Option<string>)
    requires forall k :: 0 <= k < |s| ==> s[k] as int < 0x80
    ensures DecodeLibraryId("_hex_-" + ToHex(AsciiBytes(s)), serverLibraryId) == Ok(s)
  {
    var b := AsciiBytes(s);
    var x := "_hex_-" + ToHex(b);
    assert x[..6] == "_hex_-" && x[6..] == ToHex(b);
    FromHexToHex(b);
    Utf8DecodeAscii(b);
  }

  /** An id that is neither `_` nor hex-prefixed is used as it is. */
  lemma DecodePlainLibraryId(x: string, serverLibraryId: Option<string>)
    requires x != "_" && !StartsWith(x, "_hex_-")
    ensures DecodeLibraryId(x, serverLibraryId) == Ok(x)
  {
  }

  /** A parsed query string: each key with its values. */
  type Query = map<string, seq<string>>

  /** The first value of a key present with at least one value. */
  function FirstValue(q: Query, key: string): Option<string> {
    if key in q && q[key] != [] then Some(q[key][0]) else None
  }

  /** `get_virtual_library`: the hex-encoded name wins over the plain one, and `-` means none. */
  function VirtualLibrary(q: Query): (r: Result<Option<string>, Failure>)
    ensures r.Ok? && r.value.Some? ==> r.value.value != "-"
  {
    var vl :=
      match FirstValue(q, "encoded_virtual_library")
      case Some(h) => (match HexText(h) case None => Err(ValueError) case Some(s) => Ok(Some(s)))
      case None => Ok(FirstValue(q, "virtual_library"));
    if vl.Ok? && vl.value == Some("-") then Ok(None) else vl
  }

  lemma VirtualLibraryPrecedence(q: Query)
    ensures FirstValue(q, "encoded_virtual_library").None? ==>
              VirtualLibrary(q) == Ok(if FirstValue(q, "virtual_library") == Some("-") then None else FirstValue(q, "virtual_library"))
    ensures FirstValue(q, "encoded_virtual_library").Some? && HexText(FirstValue(q, "encoded_virtual_library").value).Some? ==>
              var s := HexText(FirstValue(q, "encoded_virtual_library").value).value;
              VirtualLibrary(q) == Ok(if s == "-" then None else Some(s))
  {
  }

  /** `tuple(filter(None, path.split('/')))`. */
  function Segments(path: string): (r: seq<string>)
    ensures forall k :: 0 <= k < |r| ==> r[k] != [] && '/' !in r[k]
  {
    SplitPiecesFree(path, '/');
    NonEmpty(Split(path, '/'))
  }

  function NonEmpty(parts: seq<string>): (r: seq<string>)
    ensures forall k :: 0 <= k < |r| ==> r[k] != [] && r[k] in parts
  {
    if parts == [] then []
    else if parts[0] == [] then NonEmpty(parts[1..])
    else [parts[0]] + NonEmpty(parts[1..])
  }

  /** The item of a `show-note` URL. */
  datatype NoteItem = ItemId(id: int) | ItemValue(value: string) | NoItem

  /** `show-note` item parsing, as written: an unknown prefix is reported and then used as no item at all. */
  function NoteItemAsWritten(itemx: string): (r: Option<NoteItem>)
    ensures r == Some(NoItem) <==> !StartsWith(itemx, "id_") && !StartsWith(itemx, "hex_") && !StartsWith(itemx, "val_")
    ensures r.None? ==> StartsWith(itemx, "id_") || StartsWith(itemx, "hex_")
  {
    if StartsWith(itemx, "id_") then (match ParseInt(itemx[3..]) case None => None case Some(i) => Some(ItemId(i)))
    else if StartsWith(itemx, "hex_") then (match HexText(itemx[4..]) case None => None case Some(s) => Some(ItemValue(s)))
    else if StartsWith(itemx, "val_") then Some(ItemValue(itemx[4..]))
    else Some(NoItem)
  }

  /** `show-note` item parsing as intended: an item with no known prefix is ignored like any other invalid item. */
  function NoteItemOf(itemx: string): (r: Option<NoteItem>)
    ensures r.Some? ==> !r.value.NoItem?
  {
    if StartsWith(itemx, "id_") then (match ParseInt(itemx[3..]) case None => None case Some(i) => Some(ItemId(i)))
    else if StartsWith(itemx, "hex_") then (match HexText(itemx[4..]) case None => None case Some(s) => Some(ItemValue(s)))
    else if StartsWith(itemx, "val_") then Some(ItemValue(itemx[4..]))
    else None
  }

  /** An item without a known prefix goes on, as written, with neither an id nor a value. */
  lemma NoteItemUnknownPrefix()
    ensures NoteItemAsWritten("name") == Some(NoItem)
    ensures NoteItemOf("name") == None
  {
    assert "name"[..3][0] == 'n' && "name"[..4][0] == 'n';
  }

  /** Both parsings agree on every item with a known prefix. */
  lemma NoteItemAgree(itemx: string)
    requires StartsWith(itemx, "id_") || StartsWith(itemx, "hex_") || StartsWith(itemx, "val_")
    ensures NoteItemAsWritten(itemx) == NoteItemOf(itemx)
  {
  }

  /** An `id_` item names the item by its integer id. */
  lemma NoteItemById(i: int)
    ensures NoteItemOf("id_" + IntToString(i)) == Some(ItemId(i))
  {
    var s := "id_" + IntToString(i);
    assert s[..3] == "id_" && s[3..] == IntToString(i);
    assert !StartsWith(s, "hex_") by { assert s[0] == 'i'; }
    ParseIntToString(i);
  }

  /** A note's field: a leading `_` stands for `#` (custom columns). */
  function NoteField(field: string): (r: string)
    ensures |r| == |field|
    ensures field != [] ==> r[0] == (if field[0] == '_' then '#' else field[0]) && r[1..] == field[1..]
  {
    if StartsWith(field, "_") then "#" + field[1..] else field
  }

  datatype UrlAction =
    | SwitchLibrary(libraryId: string, knownPath: Option<string>)
    | ShowBookDetails(libraryId: string, libraryPath: string, bookId: int)
    | ShowNote(libraryId: string, libraryPath: string, field: string, item: NoteItem)
    | ShowBook(libraryId: string, libraryPath: string, bookId: int, virtualLibrary: Option<string>)
    | ViewBook(libraryId: string, libraryPath: string, bookId: int, format: string, openAt: Option<string>)
    | SearchLibrary(libraryId: string, libraryPath: string, search: string, virtualLibrary: Option<string>)
    | Ignored

  /**
   * `handle_url_action`: what the URL asks for, once its path segments, ids
   * and query are checked. A library id that cannot be decoded raises.
   */
  function HandleUrlAction(action: string, path: string, query: Query, serverLibraryId: Option<string>,
                           pathForLibraryId: string -> Option<string>): (r: Result<UrlAction, Failure>)
    ensures r.Ok? && !r.value.Ignored? && !r.value.SwitchLibrary? ==>
              pathForLibraryId(r.value.libraryId) == Some(r.value.libraryPath)
    ensures r.Ok? && r.value.SwitchLibrary? ==> r.value.knownPath == pathForLibraryId(r.value.libraryId)
    ensures r.Ok? && r.value.ShowNote? ==> !r.value.item.NoItem?
  {
    var parts := Segments(path);
    if action == "switch-library" then
      match DecodeLibraryId(PosixPath.Basename(path), serverLibraryId)
      case Err(e) => Err(e)
      case Ok(lid) => Ok(SwitchLibrary(lid, pathForLibraryId(lid)))
    else if action == "book-details" then
      if |parts| != 2 then Ok(Ignored)
      else match DecodeLibraryId(parts[0], serverLibraryId)
        case Err(e) => Err(e)
        case Ok(lid) =>
          if pathForLibraryId(lid).None? then Ok(Ignored)
          else match ParseInt(parts[1])
            case None => Ok(Ignored)
            case Some(bookId) => Ok(ShowBookDetails(lid, pathForLibraryId(lid).value, bookId))
    else if action == "show-note" then
      if |parts| != 3 then Ok(Ignored)
      else match DecodeLibraryId(parts[0], serverLibraryId)
        case Err(e) => Err(e)
        case Ok(lid) =>
          if pathForLibraryId(lid).None? then Ok(Ignored)
          else match NoteItemOf(parts[2])
            case None => Ok(Ignored)
            case Some(item) => Ok(ShowNote(lid, pathForLibraryId(lid).value, NoteField(parts[1]), item))
    else if action == "show-book" then
      if |parts| != 2 then Ok(Ignored)
      else match DecodeLibraryId(parts[0], serverLibraryId)
        case Err(e) => Err(e)
        case Ok(lid) =>
          match ParseInt(parts[1])
          case None => Ok(Ignored)
          case Some(bookId) =>
            if pathForLibraryId(lid).None? then Ok(Ignored)
            else match VirtualLibrary(query)
              case Err(e) => Err(e)
              case Ok(vl) => Ok(ShowBook(lid, pathForLibraryId(lid).value, bookId, vl))
    else if action == "view-book" then
      if |parts| != 3 then Ok(Ignored)
      else match DecodeLibraryId(parts[0], serverLibraryId)
        case Err(e) => Err(e)
        case Ok(lid) =>
          match ParseInt(parts[1])
          case None => Ok(Ignored)
          case Some(bookId) =>
            if pathForLibraryId(lid).None? then Ok(Ignored)
            else Ok(ViewBook(lid, pathForLibraryId(lid).value, bookId, Upper(parts[2]), FirstValue(query, "open_at")))
    else if action == "search" then
      if |parts| != 1 then Ok(Ignored)
      else match DecodeLibraryId(parts[0], serverLibraryId)
        case Err(e) => Err(e)
        case Ok(lid) =>
          if pathForLibraryId(lid).None? then Ok(Ignored)
          else
            var sq: Result<string, Failure> :=
              match FirstValue(query, "eq")
              case Some(h) => (match HexText(h) case None => Err(ValueError) case Some(s) => Ok(s))
              case None => Ok(match FirstValue(query, "q") case Some(s) => s case None => []);
            match sq
            case Err(e) => Err(e)
            case Ok(s) =>
              match VirtualLibrary(query)
              case Err(e) => Err(e)
              case Ok(vl) => Ok(SearchLibrary(lid, pathForLibraryId(lid).value, s, vl))
    else Ok(Ignored)
  }

  /** The number of segments each action needs; with any other number the action is ignored. */
  lemma SegmentCountChecked(action: string, path: string, query: Query, serverLibraryId: Option<string>,
                            pathForLibraryId: string -> Option<string>)
    requires || (action in {"book-details", "show-book"} && |Segments(path)| != 2)
             || (action in {"view-book", "show-note"} && |Segments(path)| != 3)
             || (action == "search" && |Segments(path)| != 1)
    ensures HandleUrlAction(action, path, query, serverLibraryId, pathForLibraryId) == Ok(Ignored)
  {
  }

  /** Only the six known actions do anything. */
  lemma UnknownActionIgnored(action: string, path: string, query: Query, serverLibraryId: Option<string>,
                             pathForLibraryId: string -> Option<string>)
    requires action !in {"switch-library", "book-details", "show-note", "show-book", "view-book", "search"}
    ensures HandleUrlAction(action, path, query, serverLibraryId, pathForLibraryId) == Ok(Ignored)
  {
  }

  /** The segments of `/lib/book` are the library id and the book id. */
  lemma TwoSegments(lid: string, n: int)
    requires lid != [] && '/' !in lid
    ensures Segments("/" + lid + "/" + IntToString(n)) == [lid, IntToString(n)]
  {
    var d := IntToString(n);
    IntToStringChars(n);
    assert '/' !in d;
    var parts: seq<string> := [[], lid, d];
    assert Join(parts, "/") == "/" + lid + "/" + d by {
      assert Join(parts[1..], "/") == lid + "/" + Join(parts[2..], "/");
    }
    SplitJoin(parts, '/');
    assert NonEmpty(parts[2..]) == [d];
    assert NonEmpty(parts[1..]) == [lid] + NonEmpty(parts[2..]);
  }

  /** `book-details/<lib>/<id>` for a known plain library id shows that book. */
  lemma BookDetailsUrl(lid: string, n: int, query: Query, serverLibraryId: Option<string>,
                       pathForLibraryId: string -> Option<string>)
    requires lid != [] && '/' !in lid && lid != "_" && !StartsWith(lid, "_hex_-")
    requires pathForLibraryId(lid).Some?
    ensures HandleUrlAction("book-details", "/" + lid + "/" + IntToString(n), query, serverLibraryId, pathForLibraryId)
            == Ok(ShowBookDetails(lid, pathForLibraryId(lid).value, n))
  {
    TwoSegments(lid, n);
    ParseIntToString(n);
  }

  // ---------------------------------------------------------------- views, pages and the title

  datatype View = LibraryView | MemoryView | CardAView | CardBView

  /** `current_view`: the view on each page of the stack. */
  function CurrentView(index: int): (r: Option<View>)
    ensures r.Some? <==> 0 <= index < 4
    ensures r == Some(LibraryView) <==> index == 0
  {
    if index == 0 then Some(LibraryView)
    else if index == 1 then Some(MemoryView)
    else if index == 2 then Some(CardAView)
    else if index == 3 then Some(CardBView)
    else None
  }

  /** The page `location_selected` shows: the library, the device's main memory, card A, and anything else card B. */
  function LocationPage(location: string): (page: int)
    ensures 0 <= page <= 3
  {
    if location == "library" then 0 else if location == "main" then 1 else if location == "carda" then 2 else 3
  }

  /** Selecting a location shows that location's view. */
  lemma LocationShowsItsView(location: string)
    ensures CurrentView(LocationPage(location)) ==
      Some(if location == "library" then LibraryView else if location == "main" then MemoryView
           else if location == "carda" then CardAView else CardBView)
  {
  }

  /** The restriction names that are set, joined with ` :: `, after a leading ` :: `; empty when none is set. */
  function Restrictions(baseRestriction: string, searchRestriction: string): string {
    var names := (if baseRestriction != [] then [baseRestriction] else []) + (if searchRestriction != [] then [searchRestriction] else []);
    if names == [] then [] else " :: " + Join(names, " :: ")
  }

  /** `set_window_title`. */
  function WindowTitle(appName: string, libraryName: string, baseRestriction: string, searchRestriction: string): (t: string)
    ensures StartsWith(t, appName + " — || " + libraryName) && EndsWith(t, " ||")
  {
    appName + " — || " + libraryName + Restrictions(baseRestriction, searchRestriction) + " ||"
  }

  lemma WindowTitleCases(app: string, lib: string, base: string, search: string)
    ensures base == [] && search == [] ==> WindowTitle(app, lib, base, search) == app + " — || " + lib + " ||"
    ensures base != [] && search == [] ==> WindowTitle(app, lib, base, search) == app + " — || " + lib + " :: " + base + " ||"
    ensures base == [] && search != [] ==> WindowTitle(app, lib, base, search) == app + " — || " + lib + " :: " + search + " ||"
    ensures base != [] && search != [] ==>
              WindowTitle(app, lib, base, search) == app + " — || " + lib + " :: " + base + " :: " + search + " ||"
  {
    if base != [] && search != [] {
      assert Join([base, search], " :: ") == base + " :: " + Join([search], " :: ");
    }
  }
}
