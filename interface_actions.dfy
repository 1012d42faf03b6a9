/**
 * The bookkeeping of interface action plugins: their unique names, how an
 * action's shortcut keys, shortcut name and tips are chosen when it is
 * created, the resources a zipped plugin hands out, and the book ids a
 * library drop carries.
 */
module InterfaceActions {
  import opened Wrappers
  import opened Strings
  import opened OrderedDicts

  // ---------------------------------------------------------------- names

  /**
   * `InterfaceAction.unique_name`: the base plugin's name when it has one, else the class name,
   * followed by the action's name in parentheses. An absent or empty base plugin name is `[]`.
   */
  function ActionUniqueName(className: string, basePluginName: string, name: string): (r: string)
    ensures StartsWith(r, "Interface Action: ") && EndsWith(r, " (" + name + ")")
    ensures var shown := if basePluginName != [] then basePluginName else className;
            |r| == 21 + |shown| + |name| && r[18..18 + |shown|] == shown
  {
    var shown := if basePluginName != [] then basePluginName else className;
    var r := "Interface Action: " + shown + " (" + name + ")";
    assert r == ("Interface Action: " + shown) + (" (" + name + ")");
    assert r[18..18 + |shown|] == ("Interface Action: " + shown)[18..];
    r
  }

  /** Without a base plugin name, the class name stands in its place. */
  lemma ActionUniqueNameFallback(className: string, other: string, name: string)
    requires className != []
    ensures ActionUniqueName(className, [], name) == ActionUniqueName(other, className, name)
  {
  }

  /** A base plugin name, when there is one, decides the unique name whatever the class is called. */
  lemma ActionUniqueNameIgnoresClass(a: string, b: string, basePluginName: string, name: string)
    requires basePluginName != []
    ensures ActionUniqueName(a, basePluginName, name) == ActionUniqueName(b, basePluginName, name)
  {
  }

  /** Two actions shown under the same plugin name have the same unique name only when their names agree. */
  lemma ActionUniqueNameInjective(className: string, basePluginName: string, a: string, b: string)
    requires ActionUniqueName(className, basePluginName, a) == ActionUniqueName(className, basePluginName, b)
    ensures a == b
  {
    var shown := if basePluginName != [] then basePluginName else className;
    var ra := ActionUniqueName(className, basePluginName, a);
    var rb := ActionUniqueName(className, basePluginName, b);
    assert ra == ("Interface Action: " + shown + " (") + a + ")";
    assert rb == ("Interface Action: " + shown + " (") + b + ")";
    assert ra[20 + |shown|..|ra| - 1] == a;
    assert rb[20 + |shown|..|rb| - 1] == b;
  }

  /** `menu_action_unique_name`. */
  function MenuActionUniqueName(pluginUniqueName: string, uniqueName: string): string {
    pluginUniqueName + " : menu action : " + uniqueName
  }

  /** The plugin's unique name and the menu action's name can both be read back from the menu action's unique name. */
  lemma MenuActionUniqueNameParts(plugin: string, name: string)
    ensures var r := MenuActionUniqueName(plugin, name);
            StartsWith(r, plugin + " : menu action : ") && r[|plugin| + 17..] == name
  {
    var r := MenuActionUniqueName(plugin, name);
    assert r == (plugin + " : menu action : ") + name;
  }

  /** Different menu actions of one plugin get different unique names. */
  lemma MenuActionUniqueNameInjective(plugin: string, a: string, b: string)
    requires MenuActionUniqueName(plugin, a) == MenuActionUniqueName(plugin, b)
    ensures a == b
  {
    MenuActionUniqueNameParts(plugin, a);
    MenuActionUniqueNameParts(plugin, b);
  }

  // ---------------------------------------------------------------- create_action

  /** A shortcut as given: one key sequence or several. */
  datatype ShortcutKeys = Key(key: string) | KeyList(keys: seq<string>)

  /** `(shortcut,)` for a string, `tuple(shortcut)` otherwise. */
  function KeysOf(s: ShortcutKeys): seq<string> {
    match s
    case Key(k) => [k]
    case KeyList(ks) => ks
  }

  /** `action_spec` and the `spec` argument: text, icon, tooltip and shortcut (`None` when not given). */
  datatype ActionSpec = ActionSpec(text: string, icon: Option<string>, tooltip: string, shortcut: Option<ShortcutKeys>)

  /** A call to the keyboard manager's `register_shortcut`. */
  datatype Registration = Registration(uniqueName: string, shortcutName: string, defaultKeys: seq<string>,
                                       description: Option<string>, group: string)

  /** The plugin attributes `create_action` consults. */
  datatype ActionClass = ActionClass(className: string, basePluginName: string, name: string, actionSpec: ActionSpec,
                                     actionShortcutName: Option<string>, instantPopup: bool)
  {
    /** The plugin's `unique_name`. */
    function UniqueName(): string {
      ActionUniqueName(className, basePluginName, name)
    }
  }

  /** What `create_action` decides: the tips shown for the action and the shortcut it registers, if any. */
  datatype ActionSetup = ActionSetup(tip: string, registration: Option<Registration>)

  /** The shortcut name: the argument, then `action_shortcut_name`, then the spec's text when it is not empty. */
  function ShortcutName(explicit: Option<string>, actionShortcutName: Option<string>, specText: string): Option<string> {
    if explicit.Some? then explicit
    else if actionShortcutName.Some? then actionShortcutName
    else if specText != [] then Some(specText)
    else None
  }

  /** `create_action(spec, attr, shortcut_name)`. */
  function CreateAction(cls: ActionClass, spec: Option<ActionSpec>, attr: string, shortcutName: Option<string>): (r: ActionSetup)
    ensures r.registration.Some? ==>
              r.registration.value.uniqueName == cls.UniqueName() + " - " + attr && r.registration.value.shortcutName != [] &&
              r.registration.value.group == cls.actionSpec.text && cls.actionSpec.text != [] &&
              !(attr == "qaction" && cls.instantPopup)
    ensures r.registration.Some? ==> r.registration.value.description.Some? ==> r.registration.value.description.value == r.tip
  {
    var sp := if spec.Some? then spec.value else cls.actionSpec;
    var tip := if sp.tooltip != [] then sp.tooltip else sp.text;
    var desc := if sp.tooltip != [] then Some(sp.tooltip) else None;
    if sp.shortcut.None? then ActionSetup(tip, None)
    else
      var name := ShortcutName(shortcutName, cls.actionShortcutName, sp.text);
      if name.Some? && name.value != [] && cls.actionSpec.text != [] && !(attr == "qaction" && cls.instantPopup) then
        ActionSetup(tip, Some(Registration(cls.UniqueName() + " - " + attr, name.value, KeysOf(sp.shortcut.value), desc,
                                           cls.actionSpec.text)))
      else ActionSetup(tip, None)
  }

  /** The tips are the tooltip, or the action's text when there is no tooltip; so is the description registered. */
  lemma CreateActionTips(cls: ActionClass, spec: ActionSpec, attr: string, shortcutName: Option<string>)
    ensures CreateAction(cls, Some(spec), attr, shortcutName).tip == if spec.tooltip != [] then spec.tooltip else spec.text
    ensures CreateAction(cls, Some(spec), attr, shortcutName).registration.Some? ==>
              CreateAction(cls, Some(spec), attr, shortcutName).registration.value.description ==
                (if spec.tooltip != [] then Some(spec.tooltip) else None)
  {
  }

  /** A shortcut registers under the name chosen in order: the argument, `action_shortcut_name`, the text. */
  lemma CreateActionShortcutName(cls: ActionClass, spec: ActionSpec, attr: string, shortcutName: Option<string>)
    requires spec.shortcut.Some? && cls.actionSpec.text != [] && !(attr == "qaction" && cls.instantPopup)
    ensures var reg := CreateAction(cls, Some(spec), attr, shortcutName).registration;
            && (shortcutName.Some? && shortcutName.value != [] ==> reg.Some? && reg.value.shortcutName == shortcutName.value)
            && (shortcutName.None? && cls.actionShortcutName.Some? && cls.actionShortcutName.value != [] ==>
                  reg.Some? && reg.value.shortcutName == cls.actionShortcutName.value)
            && (shortcutName.None? && cls.actionShortcutName.None? && spec.text != [] ==>
                  reg.Some? && reg.value.shortcutName == spec.text)
            && (reg.Some? ==> reg.value.uniqueName == cls.UniqueName() + " - " + attr && reg.value.group == cls.actionSpec.text)
  {
  }

  /** A string shortcut is one key and a tuple is its keys. */
  lemma CreateActionKeys(cls: ActionClass, spec: ActionSpec, attr: string, shortcutName: Option<string>)
    requires spec.shortcut.Some? && CreateAction(cls, Some(spec), attr, shortcutName).registration.Some?
    ensures CreateAction(cls, Some(spec), attr, shortcutName).registration.value.defaultKeys ==
              match spec.shortcut.value
              case Key(k) => [k]
              case KeyList(ks) => ks
  {
  }

  /** No shortcut is registered without one in the spec, or for the main action of an instant-popup button. */
  lemma CreateActionNoRegistration(cls: ActionClass, spec: ActionSpec, attr: string, shortcutName: Option<string>)
    requires spec.shortcut.None? || (attr == "qaction" && cls.instantPopup) || cls.actionSpec.text == []
    ensures CreateAction(cls, Some(spec), attr, shortcutName).registration.None?
  {
  }

  // ---------------------------------------------------------------- create_menu_action

  /** The `shortcut` argument of `create_menu_action`: `None`, `False`, or keys. */
  datatype MenuShortcut = NoDefault | Disabled | Given(keys: ShortcutKeys)

  /** What `create_menu_action` decides. */
  datatype MenuActionSetup = MenuActionSetup(shortcutUniqueName: string, tip: Option<string>, registration: Option<Registration>)

  function CreateMenuAction(cls: ActionClass, uniqueName: string, text: string, shortcut: MenuShortcut,
                            description: Option<string>, shortcutName: Option<string>): (r: MenuActionSetup)
    ensures r.registration.None? <==> shortcut.Disabled?
    ensures r.registration.Some? ==> r.registration.value.uniqueName == r.shortcutUniqueName
    ensures shortcut.NoDefault? ==> r.registration.Some? && r.registration.value.defaultKeys == []
  {
    var name := if shortcutName.Some? then shortcutName.value else text;
    var keys := if shortcut.Given? then KeysOf(shortcut.keys) else [];
    var un := MenuActionUniqueName(cls.UniqueName(), uniqueName);
    MenuActionSetup(un, description,
      if shortcut.Disabled? then None else Some(Registration(un, name, keys, description, cls.actionSpec.text)))
  }

  /** `False` registers nothing, `None` registers with no default keys, and keys register with those keys. */
  lemma MenuActionShortcuts(cls: ActionClass, uniqueName: string, text: string, shortcut: MenuShortcut,
                            description: Option<string>, shortcutName: Option<string>)
    ensures var r := CreateMenuAction(cls, uniqueName, text, shortcut, description, shortcutName);
            && r.shortcutUniqueName == MenuActionUniqueName(cls.UniqueName(), uniqueName)
            && (r.registration.None? <==> shortcut.Disabled?)
            && (shortcut.NoDefault? ==> r.registration.value.defaultKeys == [])
            && (shortcut.Given? && shortcut.keys.Key? ==> r.registration.value.defaultKeys == [shortcut.keys.key])
            && (r.registration.Some? ==> r.registration.value.uniqueName == r.shortcutUniqueName &&
                                          r.registration.value.shortcutName == (if shortcutName.Some? then shortcutName.value else text))
  {
  }

  // ---------------------------------------------------------------- load_resources

  datatype Failure = ValueError

  /** The resources `load_resources` returns: the requested names present in the zip, in the zip's order. */
  function Resources(namelist: seq<string>, names: seq<string>, read: string -> seq<byte>): ODict<string, seq<byte>> {
    if namelist == [] then []
    else
      var ans := Resources(namelist[..|namelist| - 1], names, read);
      var candidate := namelist[|namelist| - 1];
      if candidate in names then Put(ans, candidate, read(candidate)) else ans
  }

  /** A name is answered exactly when it was asked for and is in the zip, with its content. */
  lemma {:induction false} ResourcesLookup(namelist: seq<string>, names: seq<string>, read: string -> seq<byte>, n: string)
    ensures Lookup(Resources(namelist, names, read), n) == if n in names && n in namelist then Some(read(n)) else None
    decreases |namelist|
  {
    if namelist != [] {
      var pre := namelist[..|namelist| - 1];
      var candidate := namelist[|namelist| - 1];
      ResourcesLookup(pre, names, read, n);
      assert namelist == pre + [candidate];
      if candidate in names {
        PutLookup(Resources(pre, names, read), candidate, read(candidate), n);
      }
    }
  }

  /** The answer holds each name once. */
  lemma {:induction false} ResourcesDistinct(namelist: seq<string>, names: seq<string>, read: string -> seq<byte>)
    ensures DistinctKeys(Resources(namelist, names, read))
    decreases |namelist|
  {
    if namelist != [] {
      var pre := namelist[..|namelist| - 1];
      ResourcesDistinct(pre, names, read);
      var candidate := namelist[|namelist| - 1];
      if candidate in names {
        PutDistinct(Resources(pre, names, read), candidate, read(candidate));
      }
    }
  }

  /** `load_resources`: a plugin not loaded from a zip file raises; otherwise the zip's listing is scanned once. */
  method LoadResources(pluginPath: Option<string>, namelist: seq<string>, names: seq<string>, read: string -> seq<byte>)
    returns (r: Result<ODict<string, seq<byte>>, Failure>)
    ensures pluginPath.None? ==> r == Err(ValueError)
    ensures pluginPath.Some? ==> r == Ok(Resources(namelist, names, read))
  {
    if pluginPath.None? {
      return Err(ValueError);
    }
    var ans: ODict<string, seq<byte>> := [];
    for i := 0 to |namelist|
      invariant ans == Resources(namelist[..i], names, read)
    {
      var candidate := namelist[i];
      assert namelist[..i + 1][..i] == namelist[..i];
      if candidate in names {
        ans := Put(ans, candidate, read(candidate));
      }
    }
    assert namelist[..|namelist|] == namelist;
    return Ok(ans);
  }

  // ---------------------------------------------------------------- library drops

  /** `int()` applied to each word of a bytes object; `None` when one of them is not an integer. */
  function ParseIds(words: seq<string>): (r: Option<seq<int>>)
    ensures r.Some? ==> |r.value| == |words|
  {
    if words == [] then Some([])
    else
      var head, rest := ParseByteInt(words[0]), ParseIds(words[1..]);
      if head.Some? && rest.Some? then Some([head.value] + rest.value) else None
  }

  /** The ids of a drop, written one after the other with a space between. */
  function IdsText(ids: seq<int>): seq<string>
    ensures |IdsText(ids)| == |ids|
  {
    if ids == [] then [] else [IntToString(ids[0])] + IdsText(ids[1..])
  }

  /** Ids written out are read back. */
  lemma {:induction false} ParseIdsText(ids: seq<int>)
    ensures ParseIds(IdsText(ids)) == Some(ids)
    decreases |ids|
  {
    if ids != [] {
      ParseByteIntToString(ids[0]);
      ParseIdsText(ids[1..]);
      var ws := IdsText(ids);
      assert ws[0] == IntToString(ids[0]) && ws[1..] == IdsText(ids[1..]);
      assert ids == [ids[0]] + ids[1..];
    }
  }

  /** A plugin that runs its action on books dropped from the library. */
  class LibraryDropAction {
    var droppedIds: seq<int>
    /** How many times `do_drop` was scheduled. */
    var dropsScheduled: nat

    constructor ()
      ensures droppedIds == [] && dropsScheduled == 0
    {
      droppedIds := [];
      dropsScheduled := 0;
    }

    /**
     * `drop_event`: only a drop carrying library books is accepted; its
     * data, a bytes object split on ASCII whitespace, becomes `dropped_ids`.
     * A word that is not an integer raises.
     */
    method DropEvent(hasLibraryFormat: bool, data: string) returns (r: Result<bool, Failure>)
      modifies this
      ensures !hasLibraryFormat ==> r == Ok(false) && droppedIds == old(droppedIds) && dropsScheduled == old(dropsScheduled)
      ensures hasLibraryFormat && ParseIds(ByteWords(data)).None? ==>
                r == Err(ValueError) && droppedIds == old(droppedIds) && dropsScheduled == old(dropsScheduled)
      ensures hasLibraryFormat && ParseIds(ByteWords(data)).Some? ==>
                r == Ok(true) && droppedIds == ParseIds(ByteWords(data)).value && dropsScheduled == old(dropsScheduled) + 1
    {
      if !hasLibraryFormat {
        return Ok(false);
      }
      var ids := ParseIds(ByteWords(data));
      if ids.None? {
        return Err(ValueError);
      }
      droppedIds := ids.value;
      dropsScheduled := dropsScheduled + 1;
      return Ok(true);
    }
  }

  /** A drop of ids written with single spaces carries exactly those ids. */
  lemma DropCarriesIds(ids: seq<int>)
    ensures ParseIds(ByteWords(Join(IdsText(ids), " "))) == Some(ids)
  {
    var ws := IdsText(ids);
    forall k | 0 <= k < |ws|
      ensures ws[k] != [] && forall c :: c in ws[k] ==> !IsByteSpace(c)
    {
      IdsTextAt(ids, k);
      IntToStringChars(ids[k]);
    }
    ByteWordsJoin(ws);
    ParseIdsText(ids);
  }

  /**
   * Only ASCII whitespace separates ids: a file separator (U+001C), which
   * `str.split()` would treat as whitespace, makes the drop raise.
   */
  lemma DropRejectsFileSeparator()
    ensures ParseIds(ByteWords("1\U{001c}2")).None?
  {
    var data := "1\U{001c}2";
    ByteWordLengthOf(data, 3);
    assert data[..3] == data;
    assert ByteWords(data) == [data];
    assert data[1..] == "\U{001c}2";
    assert ByteStrip(data) == data;
    assert !AllDigits(data) by { assert !IsDigit(data[1]); }
  }

  lemma {:induction false} IdsTextAt(ids: seq<int>, k: nat)
    requires k < |ids|
    ensures IdsText(ids)[k] == IntToString(ids[k])
    decreases k
  {
    if k > 0 {
      IdsTextAt(ids[1..], k - 1);
    }
  }
}
