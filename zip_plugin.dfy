/**
 * Name resolution for plugins packaged as zip files: which name a plugin is
 * imported under, which `.py` entries of the zip become importable modules,
 * how a dotted module name is mapped back to a zip entry, and which entries
 * count as the resources of a package.
 *
 * The zip listing is an input (a sequence of entry names); reading entries,
 * compiling and executing modules are outside the model.
 */
module ZipPlugin {
  import opened Wrappers
  import opened Strings
  import opened PosixPath
  import opened OrderedDicts

  datatype Failure =
    | InvalidPlugin
    | IndexError
    | KeyError
    | PluginNotFound
    | ImportFailed(pluginName: string)

  // ---------------------------------------------------------------- ordered dictionaries

  /** An ordered dictionary from dotted module name to the zip entry that holds its code. */
  type Names = seq<(string, string)>


  // ---------------------------------------------------------------- the listing

  /** The entry names with one leading `/` removed; `x[0]` on an empty name raises `IndexError`. */
  function StripLeading(all: seq<string>): (r: Result<seq<string>, Failure>)
    ensures r.Err? <==> exists i :: 0 <= i < |all| && all[i] == []
    ensures r.Ok? ==> |r.value| == |all|
                      && forall i :: 0 <= i < |all| ==> r.value[i] == (if all[i][0] == '/' then all[i][1..] else all[i])
    decreases |all|
  {
    if all == [] then Ok([])
    else if all[0] == [] then Err(IndexError)
    else
      match StripLeading(all[1..])
      case Err(e) => Err(e)
      case Ok(rest) => Ok([if all[0][0] == '/' then all[0][1..] else all[0]] + rest)
  }

  /** A `plugin-import-name-X.txt` entry. */
  predicate IsImportNameFile(name: string) {
    StartsWith(SplitExt(name).0, "plugin-import-name-") && SplitExt(name).1 == ".txt"
  }

  /** `stem.rpartition('-')[-1]`: the text after the last `-` of the stem. */
  function ImportNameIn(name: string): (r: string)
    requires IsImportNameFile(name)
    ensures '-' !in r
  {
    var stem := SplitExt(name).0;
    stem[RFind(stem, '-') + 1..]
  }

  /** The index of the last element satisfying `p`, or -1. */
  function LastIndex<T>(s: seq<T>, p: T -> bool): (i: int)
    ensures -1 <= i < |s|
    ensures i >= 0 ==> p(s[i])
    ensures forall j :: i < j < |s| ==> !p(s[j])
    decreases |s|
  {
    if s == [] then -1
    else if p(s[|s| - 1]) then |s| - 1
    else LastIndex(s[..|s| - 1], p)
  }

  /** The import name the listing declares: the last `plugin-import-name-X.txt` entry wins. */
  function ImportName(names: seq<string>): (r: Option<string>)
    ensures r.None? <==> forall i :: 0 <= i < |names| ==> !IsImportNameFile(names[i])
    ensures r.Some? ==> exists i :: 0 <= i < |names| && IsImportNameFile(names[i]) && r.value == ImportNameIn(names[i])
                          && forall j :: i < j < |names| ==> !IsImportNameFile(names[j])
  {
    LastImportName(names)
  }

  /** The import name read from the last marker entry, without the properties stated about it. */
  function LastImportName(names: seq<string>): Option<string> {
    var i := LastIndex(names, IsImportNameFile);
    if i < 0 then None else Some(ImportNameIn(names[i]))
  }

  /** What `re.match('[a-zA-Z][_0-9a-zA-Z]*', name)` accepts: only the first character is checked. */
  predicate StartsIdentifier(name: string) {
    name != [] && IsAsciiLetter(name[0])
  }

  /** The stand-in name of a plugin without an import name. */
  function DummyName(c: nat): string {
    "dummy" + NatToString(c)
  }

  lemma DummyNameInjective(a: nat, b: nat)
    requires DummyName(a) == DummyName(b)
    ensures a == b
  {
    assert DummyName(a)[5..] == NatToString(a);
    assert DummyName(b)[5..] == NatToString(b);
    NatToStringInjective(a, b);
  }

  /** The `.py` entries, in listing order. */
  function PyNames(names: seq<string>): (r: seq<string>)
    ensures forall x :: x in r <==> x in names && EndsWith(x, ".py")
    decreases |names|
  {
    if names == [] then []
    else (if EndsWith(names[0], ".py") then [names[0]] else []) + PyNames(names[1..])
  }

  /** The directories of the `…/__init__.py` entries. */
  function InitDirs(py: seq<string>): (r: seq<string>)
    ensures forall d :: d in r <==> exists x :: x in py && EndsWith(x, "/__init__.py") && d == Dirname(x)
    decreases |py|
  {
    if py == [] then []
    else
      var rest := InitDirs(py[1..]);
      assert forall x :: x in py[1..] ==> x in py;
      assert forall x :: x in py ==> x == py[0] || x in py[1..];
      (if EndsWith(py[0], "/__init__.py") then [Dirname(py[0])] else []) + rest
  }

  // ---------------------------------------------------------------- valid packages

  /** `x.count('/')`, the sort key of the candidate directories. */
  function Depth(c: string): nat {
    Count(c, '/')
  }

  predicate SortedByDepth(s: seq<string>) {
    forall i, j :: 0 <= i < j < |s| ==> Depth(s[i]) <= Depth(s[j])
  }

  /** Inserts `x` before the first element at least as deep, which keeps equal keys in input order. */
  function InsertByDepth(x: string, s: seq<string>): seq<string>
    decreases |s|
  {
    if s == [] || Depth(x) <= Depth(s[0]) then [x] + s
    else [s[0]] + InsertByDepth(x, s[1..])
  }

  /** Inserting into a sorted sequence adds the element and keeps it sorted. */
  lemma {:induction false} InsertByDepthSorted(x: string, s: seq<string>)
    requires SortedByDepth(s)
    ensures multiset(InsertByDepth(x, s)) == multiset(s) + multiset{x}
    ensures SortedByDepth(InsertByDepth(x, s))
    decreases |s|
  {
    if s != [] && Depth(x) > Depth(s[0]) {
      var rest := InsertByDepth(x, s[1..]);
      assert s == [s[0]] + s[1..];
      InsertByDepthSorted(x, s[1..]);
      InsertAbove(s[0], x, s[1..], rest);
      assert InsertByDepth(x, s) == [s[0]] + rest;
      assert multiset([s[0]] + rest) == multiset{s[0]} + multiset(rest);
      assert multiset(s) == multiset{s[0]} + multiset(s[1..]);
    } else {
      InsertFront(x, s);
    }
  }

  /** An element no deeper than the head of a sorted sequence can go in front. */
  lemma InsertFront(x: string, s: seq<string>)
    requires SortedByDepth(s) && (s == [] || Depth(x) <= Depth(s[0]))
    ensures SortedByDepth([x] + s)
  {
    var r := [x] + s;
    forall i, j | 0 <= i < j < |r|
      ensures Depth(r[i]) <= Depth(r[j])
    {
      assert r[j] == s[j - 1];
      if i > 0 {
        assert r[i] == s[i - 1];
      } else {
        assert Depth(s[0]) <= Depth(s[j - 1]);
      }
    }
  }

  /** Putting a shallower element before an insertion result keeps it sorted. */
  lemma InsertAbove(h: string, x: string, t: seq<string>, rest: seq<string>)
    requires SortedByDepth([h] + t) && Depth(h) < Depth(x)
    requires multiset(rest) == multiset(t) + multiset{x} && SortedByDepth(rest)
    ensures SortedByDepth([h] + rest)
  {
    forall k | 0 <= k < |rest|
      ensures Depth(h) <= Depth(rest[k])
    {
      assert rest[k] in multiset(rest);
      assert ([h] + t)[0] == h;
      if rest[k] != x {
        assert rest[k] in multiset(t) + multiset{x};
        assert rest[k] in multiset(t);
        var m :| 0 <= m < |t| && t[m] == rest[k];
        assert ([h] + t)[m + 1] == t[m];
      }
    }
    var r := [h] + rest;
    forall i, j | 0 <= i < j < |r|
      ensures Depth(r[i]) <= Depth(r[j])
    {
      if i > 0 {
        assert r[i] == rest[i - 1] && r[j] == rest[j - 1];
      } else {
        assert r[j] == rest[j - 1];
      }
    }
  }

  /** `sorted(candidates, key=lambda x: x.count('/'))`, a stable sort. */
  function SortByDepth(s: seq<string>): seq<string>
    decreases |s|
  {
    if s == [] then [] else InsertByDepth(s[0], SortByDepth(s[1..]))
  }

  /** The sort is a permutation into shallowest-first order. */
  lemma {:induction false} SortByDepthSorted(s: seq<string>)
    ensures multiset(SortByDepth(s)) == multiset(s) && SortedByDepth(SortByDepth(s))
    decreases |s|
  {
    if s != [] {
      SortByDepthSorted(s[1..]);
      InsertByDepthSorted(s[0], SortByDepth(s[1..]));
      assert s == [s[0]] + s[1..];
    }
  }

  /** `'.'.join(parts[:-1])` for the `/`-separated parts of `c`. */
  function ParentPackage(c: string): string {
    var parts := Split(c, '/');
    Join(parts[..|parts| - 1], ".")
  }

  /** `'.'.join(parts)`. */
  function Dotted(c: string): string {
    Join(Split(c, '/'), ".")
  }

  /** One step of the candidate loop: a directory is a package when its parent package is (or it has none). */
  function AddPackage(valid: set<string>, c: string): set<string> {
    var parent := ParentPackage(c);
    if parent != [] && parent !in valid then valid else valid + {Dotted(c)}
  }

  /** `valid_packages` after the candidates `cands` were visited in order. */
  function ValidAfter(cands: seq<string>): set<string>
    decreases |cands|
  {
    if cands == [] then {} else AddPackage(ValidAfter(cands[..|cands| - 1]), cands[|cands| - 1])
  }

  /** A package stays valid once recorded. */
  lemma {:induction false} ValidMono(s: seq<string>, i: nat, j: nat)
    requires i <= j <= |s|
    ensures ValidAfter(s[..i]) <= ValidAfter(s[..j])
    decreases j
  {
    if i < j {
      ValidMono(s, i, j - 1);
      assert s[..j][..j - 1] == s[..j - 1];
    }
  }

  /** Every valid package comes from a candidate whose parent package was already valid, or which has none. */
  lemma {:induction false} ValidSound(s: seq<string>, q: string)
    requires q in ValidAfter(s)
    ensures exists i :: 0 <= i < |s| && Dotted(s[i]) == q
                        && (ParentPackage(s[i]) == [] || ParentPackage(s[i]) in ValidAfter(s[..i]))
    decreases |s|
  {
    var n := |s| - 1;
    var front := s[..n];
    if q in ValidAfter(front) {
      ValidSound(front, q);
      var i :| 0 <= i < |front| && Dotted(front[i]) == q
               && (ParentPackage(front[i]) == [] || ParentPackage(front[i]) in ValidAfter(front[..i]));
      assert front[..i] == s[..i];
    } else {
      assert Dotted(s[n]) == q;
    }
  }

  /** The directory of the parent package. */
  function ParentDir(c: string): string {
    var parts := Split(c, '/');
    Join(parts[..|parts| - 1], "/")
  }

  /** The parent directory is one level up, and its dotted name is the parent package. */
  lemma ParentDirShallower(c: string)
    requires ParentPackage(c) != []
    ensures Split(ParentDir(c), '/') == Split(c, '/')[..|Split(c, '/')| - 1]
    ensures Dotted(ParentDir(c)) == ParentPackage(c)
    ensures Depth(ParentDir(c)) < Depth(c)
  {
    var parts := Split(c, '/');
    var pp := parts[..|parts| - 1];
    assert pp != [];
    SplitPiecesFree(c, '/');
    assert forall k :: 0 <= k < |pp| ==> '/' !in pp[k] by {
      forall k | 0 <= k < |pp| ensures '/' !in pp[k] {
        assert pp[k] == parts[k];
      }
    }
    SplitJoin(pp, '/');
    CountSplit(c, '/');
    CountSplit(ParentDir(c), '/');
  }

  /** Every directory from `c` up to the top level has an `__init__.py` among `dirs`. */
  ghost predicate HasInitChain(dirs: seq<string>, c: string)
    decreases |Split(c, '/')|
  {
    c in dirs
    && (ParentPackage(c) == [] || (ParentDirShallower(c); HasInitChain(dirs, ParentDir(c))))
  }

  /**
   * Visiting the candidates shallowest first, a directory whose every
   * ancestor has an `__init__.py` is a valid package once it is visited.
   */
  lemma {:induction false} ValidComplete(s: seq<string>, c: string, i: nat)
    requires SortedByDepth(s) && i < |s| && s[i] == c && HasInitChain(s, c)
    ensures Dotted(c) in ValidAfter(s[..i + 1])
    decreases |Split(c, '/')|
  {
    assert s[..i + 1][..i] == s[..i];
    if ParentPackage(c) != [] {
      ParentDirShallower(c);
      var pd := ParentDir(c);
      var j :| 0 <= j < |s| && s[j] == pd;
      assert Depth(s[j]) < Depth(s[i]);
      assert j < i;
      ValidComplete(s, pd, j);
      ValidMono(s, j + 1, i);
    }
  }

  /** A chain of `__init__.py` directories stays a chain in any listing holding those directories. */
  lemma {:induction false} ChainTransfer(d1: seq<string>, d2: seq<string>, c: string)
    requires forall x :: x in d1 ==> x in d2
    requires HasInitChain(d1, c)
    ensures HasInitChain(d2, c)
    decreases |Split(c, '/')|
  {
    if ParentPackage(c) != [] {
      ParentDirShallower(c);
      ChainTransfer(d1, d2, ParentDir(c));
    }
  }

  /**
   * Whatever the listing order, a directory whose every ancestor up to the
   * top level has an `__init__.py` becomes a valid package.
   */
  lemma InitChainValid(dirs: seq<string>, c: string)
    requires HasInitChain(dirs, c)
    ensures Dotted(c) in ValidAfter(SortByDepth(dirs))
  {
    var s := SortByDepth(dirs);
    SortByDepthSorted(dirs);
    assert forall x :: x in dirs ==> x in s by {
      forall x | x in dirs ensures x in s {
        assert x in multiset(dirs);
      }
    }
    ChainTransfer(dirs, s, c);
    ChainValidSorted(s, c);
  }

  /** In a shallowest-first listing, a directory with a full chain ends up valid. */
  lemma ChainValidSorted(s: seq<string>, c: string)
    requires SortedByDepth(s) && HasInitChain(s, c)
    ensures Dotted(c) in ValidAfter(s)
  {
    assert c in s;
    var i :| 0 <= i < |s| && s[i] == c;
    ValidComplete(s, c, i);
    ValidMono(s, i + 1, |s|);
    assert s[..|s|] == s;
  }

  // ---------------------------------------------------------------- module names

  /** The dotted module name of a `.py` entry. */
  function ModuleName(cand: string): string {
    Join(Split(SplitExt(cand).0, '/'), ".")
  }

  /** The package that contains a `.py` entry, `''` at the top level. */
  function PackageOf(cand: string): string {
    var parts := Split(SplitExt(cand).0, '/');
    Join(parts[..|parts| - 1], ".")
  }

  /** An entry is importable when it is at the top level or inside a valid package. */
  predicate Admitted(valid: set<string>, cand: string) {
    PackageOf(cand) == [] || PackageOf(cand) in valid
  }

  /** One step of the names loop: `zf.getinfo` raises `KeyError` for a name the zip does not hold. */
  function AddName(od: Result<Names, Failure>, cand: string, valid: set<string>, all: seq<string>): Result<Names, Failure> {
    if od.Err? || !Admitted(valid, cand) then od
    else if cand !in all then Err(KeyError)
    else Ok(Put(od.value, ModuleName(cand), cand))
  }

  /** The `names` dictionary after the `.py` entries `py` were visited in order. */
  function NamesAfter(py: seq<string>, valid: set<string>, all: seq<string>): Result<Names, Failure>
    decreases |py|
  {
    if py == [] then Ok([]) else AddName(NamesAfter(py[..|py| - 1], valid, all), py[|py| - 1], valid, all)
  }

  /** Only admitted entries of the zip are recorded, each under its own module name. */
  lemma {:induction false} NamesSound(py: seq<string>, valid: set<string>, all: seq<string>, k: string)
    requires NamesAfter(py, valid, all).Ok? && Lookup(NamesAfter(py, valid, all).value, k).Some?
    ensures var v := Lookup(NamesAfter(py, valid, all).value, k).value;
            v in py && v in all && Admitted(valid, v) && ModuleName(v) == k
    decreases |py|
  {
    var front := py[..|py| - 1];
    var last := py[|py| - 1];
    var od := NamesAfter(front, valid, all).value;
    if Admitted(valid, last) {
      PutLookup(od, ModuleName(last), last, k);
    }
    if !Admitted(valid, last) || k != ModuleName(last) {
      NamesSound(front, valid, all, k);
      var v := Lookup(od, k).value;
      assert v in py by { assert forall x :: x in front ==> x in py; }
    }
  }

  /** Every admitted entry is recorded under its module name, unless the zip lacks it. */
  lemma {:induction false} NamesComplete(py: seq<string>, valid: set<string>, all: seq<string>, i: nat)
    requires NamesAfter(py, valid, all).Ok? && i < |py| && Admitted(valid, py[i])
    ensures Lookup(NamesAfter(py, valid, all).value, ModuleName(py[i])).Some?
    decreases |py|
  {
    var front := py[..|py| - 1];
    var last := py[|py| - 1];
    var od := NamesAfter(front, valid, all).value;
    if Admitted(valid, last) {
      PutLookup(od, ModuleName(last), last, ModuleName(py[i]));
    }
    if i < |py| - 1 {
      assert front[i] == py[i];
      NamesComplete(front, valid, all, i);
    }
  }

  /** Building the names fails exactly when an admitted entry is not in the zip. */
  lemma {:induction false} NamesFail(py: seq<string>, valid: set<string>, all: seq<string>)
    ensures NamesAfter(py, valid, all).Err?
            <==> exists i :: 0 <= i < |py| && Admitted(valid, py[i]) && py[i] !in all
    ensures NamesAfter(py, valid, all).Err? ==> NamesAfter(py, valid, all).error == KeyError
    decreases |py|
  {
    if py != [] {
      var front := py[..|py| - 1];
      NamesFail(front, valid, all);
      assert forall i :: 0 <= i < |front| ==> front[i] == py[i];
    }
  }

  /** A legacy top-level module standing in for `__init__`. */
  predicate IsLegacyName(k: string) {
    '.' !in k && EndsWith(k, "plugin")
  }

  /** The position of the first legacy module in dictionary order, or -1. */
  function FirstLegacyIndex(od: Names): (i: int)
    ensures -1 <= i < |od|
    ensures i >= 0 ==> IsLegacyName(od[i].0)
    ensures forall j :: 0 <= j < |od| && (i < 0 || j < i) ==> !IsLegacyName(od[j].0)
    decreases |od|
  {
    if od == [] then -1
    else if IsLegacyName(od[0].0) then 0
    else
      var k := FirstLegacyIndex(od[1..]);
      assert forall j :: 0 < j < |od| ==> od[j] == od[1..][j - 1];
      if k < 0 then -1 else k + 1
  }

  /** The entry of the first legacy module, in dictionary order. */
  function FirstLegacy(od: Names): (r: Option<string>)
    ensures r.None? <==> forall i :: 0 <= i < |od| ==> !IsLegacyName(od[i].0)
    ensures r.Some? ==> exists i :: 0 <= i < |od| && IsLegacyName(od[i].0) && od[i].1 == r.value
                          && forall j :: 0 <= j < i ==> !IsLegacyName(od[j].0)
  {
    var i := FirstLegacyIndex(od);
    if i < 0 then None else Some(od[i].1)
  }

  /** Without `__init__`, the first legacy module's entry is also recorded as `__init__`. */
  function WithLegacyInit(od: Names): (r: Names)
    ensures Lookup(od, "__init__").Some? ==> r == od
    ensures Lookup(od, "__init__").None? && FirstLegacy(od).Some? ==> Lookup(r, "__init__") == FirstLegacy(od)
    ensures Lookup(od, "__init__").None? && FirstLegacy(od).None? ==> r == od
  {
    if Lookup(od, "__init__").Some? then od
    else
      match FirstLegacy(od)
      case None => od
      case Some(v) =>
        PutLookup(od, "__init__", v, "__init__");
        Put(od, "__init__", v)
  }

  /** The legacy step touches no other module name. */
  lemma WithLegacyInitKeeps(od: Names, k: string)
    requires k != "__init__"
    ensures Lookup(WithLegacyInit(od), k) == Lookup(od, k)
  {
    if Lookup(od, "__init__").None? && FirstLegacy(od).Some? {
      PutLookup(od, "__init__", FirstLegacy(od).value, k);
    }
  }

  /**
   * The module names of a plugin, built from the stripped listing `names`
   * and the zip's own entries `all`; `InvalidPlugin` when no `__init__`
   * (and no legacy stand-in) exists.
   */
  function CodeNames(all: seq<string>, names: seq<string>): (r: Result<Names, Failure>)
    ensures r.Ok? ==> Lookup(r.value, "__init__").Some?
  {
    var py := PyNames(names);
    var valid := ValidAfter(SortByDepth(InitDirs(py)));
    match NamesAfter(py, valid, all)
    case Err(e) => Err(e)
    case Ok(od) =>
      var od' := WithLegacyInit(od);
      if Lookup(od', "__init__").None? then Err(InvalidPlugin) else Ok(od')
  }

  /** A plugin with neither `__init__` nor a legacy module is rejected. */
  lemma CodeNamesNoInit(all: seq<string>, names: seq<string>)
    requires var py := PyNames(names);
             var r := NamesAfter(py, ValidAfter(SortByDepth(InitDirs(py))), all);
             r.Ok? && Lookup(r.value, "__init__").None? && FirstLegacy(r.value).None?
    ensures CodeNames(all, names) == Err(InvalidPlugin)
  {
  }

  /** Selects the name a plugin is imported under. */
  ghost predicate PluginNameChosen(loaded: map<string, Loaded>, names: seq<string>, name: string) {
    match ImportName(names)
    case Some(n) => name == n && StartsIdentifier(n)
    case None =>
      exists c: nat :: 1 <= c && name == DummyName(c) && name !in loaded
        && forall j: nat :: 1 <= j < c ==> DummyName(j) in loaded
  }

  /**
   * What `_locate_code` does with the listing `all`: `IndexError` for an
   * empty entry name, `InvalidPlugin` for an import name that does not start
   * with a letter, the failure of building the module names, or else the
   * chosen name recorded with the module names.
   */
  ghost predicate LocateOutcome(all: seq<string>, zipPath: string, before: map<string, Loaded>, after: map<string, Loaded>,
                                r: Result<string, Failure>)
  {
    (r == Err(IndexError) <==> StripLeading(all).Err?)
    && (StripLeading(all).Ok? ==>
          var names := StripLeading(all).value;
          if ImportName(names).Some? && !StartsIdentifier(ImportName(names).value) then r == Err(InvalidPlugin)
          else match CodeNames(all, names)
            case Err(e) => r == Err(e)
            case Ok(od) =>
              r.Ok? && PluginNameChosen(before, names, r.value)
              && after == before[r.value := Loaded(zipPath, od, all)])
  }

  /** Removing a key just written leaves the map as it was before, without that key. */
  lemma UpdateThenRemove<K, V>(m: map<K, V>, k: K, v: V)
    ensures m[k := v] - {k} == m - {k}
  {
  }

  /** The record of a located plugin: the zip path, its module names and its full listing. */
  datatype Loaded = Loaded(zipPath: string, names: Names, allNames: seq<string>)

  // ---------------------------------------------------------------- the finder

  /** The meta-path finder: the plugins located so far, by import name. */
  class PluginFinder {
    var loadedPlugins: map<string, Loaded>

    constructor ()
      ensures loadedPlugins == map[]
    {
      loadedPlugins := map[];
    }

    /**
     * `_locate_code` over the zip listing `all`: chooses the import name,
     * builds the module names and records the plugin; nothing is recorded
     * when it raises.
     */
    method LocateCode(all: seq<string>, zipPath: string) returns (r: Result<string, Failure>)
      modifies this
      ensures r.Err? ==> loadedPlugins == old(loadedPlugins) && !r.error.ImportFailed?
      ensures r.Ok? ==> r.value in loadedPlugins && loadedPlugins == old(loadedPlugins)[r.value := loadedPlugins[r.value]]
      ensures LocateOutcome(all, zipPath, old(loadedPlugins), loadedPlugins, r)
    {
      var stripped := StripLeading(all);
      if stripped.Err? {
        return Err(IndexError);
      }
      var names := stripped.value;
      var imp := FindImportName(names);
      var pluginName: string;
      if imp.None? {
        var c;
        c, pluginName := ChooseDummy(loadedPlugins);
        assert PluginNameChosen(loadedPlugins, names, pluginName);
      } else {
        if !StartsIdentifier(imp.value) {
          return Err(InvalidPlugin);
        }
        pluginName := imp.value;
      }
      assert PluginNameChosen(loadedPlugins, names, pluginName);
      var py := PyNames(names);
      var valid := ValidPackages(SortByDepth(InitDirs(py)));
      var od := BuildNames(py, valid, all);
      if od.Err? {
        NamesFail(py, valid, all);
        assert CodeNames(all, names) == Err(KeyError);
        return Err(KeyError);
      }
      var od' := AddLegacyInit(od.value);
      if Lookup(od', "__init__").None? {
        assert CodeNames(all, names) == Err(InvalidPlugin);
        return Err(InvalidPlugin);
      }
      assert CodeNames(all, names) == Ok(od');
      loadedPlugins := loadedPlugins[pluginName := Loaded(zipPath, od', all)];
      return Ok(pluginName);
    }

    /**
     * `load`: an unreadable file is `PluginNotFound`; when importing the
     * located plugin fails (`importOk` false), its record is deleted again.
     */
    method Load(readable: bool, all: seq<string>, zipPath: string, importOk: bool) returns (r: Result<string, Failure>)
      modifies this
      ensures !readable ==> r == Err(PluginNotFound) && loadedPlugins == old(loadedPlugins)
      ensures r.Ok? ==> r.value in loadedPlugins && loadedPlugins == old(loadedPlugins)[r.value := loadedPlugins[r.value]]
      ensures r.Err? && r.error.ImportFailed? ==> loadedPlugins == old(loadedPlugins) - {r.error.pluginName}
      ensures r.Err? && !r.error.ImportFailed? ==> loadedPlugins == old(loadedPlugins)
    {
      if !readable {
        return Err(PluginNotFound);
      }
      var located := LocateCode(all, zipPath);
      if located.Err? {
        return located;
      }
      var pluginName := located.value;
      if !importOk {
        UpdateThenRemove(old(loadedPlugins), pluginName, loadedPlugins[pluginName]);
        loadedPlugins := loadedPlugins - {pluginName};
        return Err(ImportFailed(pluginName));
      }
      return Ok(pluginName);
    }
  }

  /** The import-name loop: the last `plugin-import-name-X.txt` entry decides. */
  method FindImportName(names: seq<string>) returns (r: Option<string>)
    ensures r == ImportName(names)
  {
    r := None;
    var i := 0;
    while i < |names|
      invariant 0 <= i <= |names|
      invariant r == LastImportName(names[..i])
    {
      ImportNameStep(names, i);
      if IsImportNameFile(names[i]) {
        r := Some(ImportNameIn(names[i]));
      }
      i := i + 1;
    }
    assert names[..i] == names;
  }

  /** One more entry: it decides the import name when it is an import-name file. */
  lemma ImportNameStep(names: seq<string>, i: nat)
    requires i < |names|
    ensures LastImportName(names[..i + 1])
            == if IsImportNameFile(names[i]) then Some(ImportNameIn(names[i])) else LastImportName(names[..i])
  {
    var p := names[..i + 1];
    assert p[..|p| - 1] == names[..i] && p[|p| - 1] == names[i];
    assert LastIndex(p, IsImportNameFile)
           == if IsImportNameFile(names[i]) then i else LastIndex(names[..i], IsImportNameFile);
  }

  /** The smallest `dummyN`, `N >= 1`, that no loaded plugin uses. */
  method ChooseDummy(loaded: map<string, Loaded>) returns (c: nat, name: string)
    ensures 1 <= c && name == DummyName(c) && name !in loaded
    ensures forall j: nat :: 1 <= j < c ==> DummyName(j) in loaded
  {
    c := 1;
    name := DummyName(c);
    ghost var taken: set<string> := {};
    while name in loaded
      invariant 1 <= c && name == DummyName(c)
      invariant forall j: nat :: 1 <= j < c ==> DummyName(j) in loaded
      invariant taken <= loaded.Keys
      invariant forall y :: y in taken ==> exists j: nat :: 1 <= j < c && y == DummyName(j)
      decreases |loaded.Keys - taken|
    {
      assert name !in taken by {
        if name in taken {
          var j: nat :| 1 <= j < c && name == DummyName(j);
          DummyNameInjective(j, c);
        }
      }
      assert loaded.Keys - (taken + {name}) == (loaded.Keys - taken) - {name};
      taken := taken + {name};
      c := c + 1;
      name := DummyName(c);
    }
  }

  /** The candidate loop over the `__init__.py` directories, shallowest first. */
  method ValidPackages(cands: seq<string>) returns (valid: set<string>)
    ensures valid == ValidAfter(cands)
  {
    valid := {};
    var i := 0;
    while i < |cands|
      invariant 0 <= i <= |cands|
      invariant valid == ValidAfter(cands[..i])
    {
      assert cands[..i + 1][..i] == cands[..i];
      var parts := Split(cands[i], '/');
      var parent := Join(parts[..|parts| - 1], ".");
      if parent == [] || parent in valid {
        valid := valid + {Join(parts, ".")};
      }
      i := i + 1;
    }
    assert cands[..i] == cands;
  }

  /** The names loop over the `.py` entries. */
  method BuildNames(py: seq<string>, valid: set<string>, all: seq<string>) returns (r: Result<Names, Failure>)
    ensures r == NamesAfter(py, valid, all)
  {
    var od: Names := [];
    var i := 0;
    while i < |py|
      invariant 0 <= i <= |py|
      invariant NamesAfter(py[..i], valid, all) == Ok(od)
    {
      assert py[..i + 1][..i] == py[..i];
      if Admitted(valid, py[i]) {
        if py[i] !in all {
          NamesAfterErr(py, valid, all, i + 1);
          return Err(KeyError);
        }
        od := Put(od, ModuleName(py[i]), py[i]);
      }
      i := i + 1;
    }
    assert py[..i] == py;
    return Ok(od);
  }

  /** Once the names loop has failed, it stays failed. */
  lemma {:induction false} NamesAfterErr(py: seq<string>, valid: set<string>, all: seq<string>, i: nat)
    requires i <= |py| && NamesAfter(py[..i], valid, all) == Err(KeyError)
    ensures NamesAfter(py, valid, all) == Err(KeyError)
    decreases |py| - i
  {
    if i < |py| {
      assert py[..i + 1][..i] == py[..i];
      NamesAfterErr(py, valid, all, i + 1);
    } else {
      assert py[..i] == py;
    }
  }

  /** The legacy loop: the first top-level name ending in `plugin` also becomes `__init__`. */
  method AddLegacyInit(od: Names) returns (r: Names)
    ensures r == WithLegacyInit(od)
  {
    r := od;
    if Lookup(od, "__init__").None? {
      var i := 0;
      while i < |od|
        invariant 0 <= i <= |od|
        invariant forall j :: 0 <= j < i ==> !IsLegacyName(od[j].0)
      {
        if IsLegacyName(od[i].0) {
          assert FirstLegacy(od) == Some(od[i].1) by {
            var f := FirstLegacy(od);
            if f.Some? {
              var k :| 0 <= k < |od| && IsLegacyName(od[k].0) && od[k].1 == f.value
                       && forall j :: 0 <= j < k ==> !IsLegacyName(od[j].0);
              assert k == i;
            }
          }
          r := Put(od, "__init__", od[i].1);
          return;
        }
        i := i + 1;
      }
    }
  }

  // ---------------------------------------------------------------- finding modules

  /** What the loader of a found module knows. */
  datatype Loader = Loader(
    pluginName: Option<string>,
    inPlugin: Option<string>,
    zipPath: Option<string>,
    names: Names,
    filename: Option<string>,
    isPackage: bool,
    allNames: seq<string>)

  datatype ModuleSpec = ModuleSpec(fullname: string, loader: Loader)

  /** The in-plugin name asked for: the components after the plugin's, `__init__` when there are none. */
  function RequestedName(parts: seq<string>): string
    requires |parts| >= 2
  {
    var joined := Join(parts[2..], ".");
    if joined == [] then "__init__" else joined
  }

  /** `find_spec`: maps `calibre_plugins.<plugin>.<module>` to a loader, or `None`. */
  function FindSpec(fullname: string, loaded: map<string, Loaded>): (r: Option<ModuleSpec>)
    ensures r.Some? ==> r.value.fullname == fullname
  {
    if !StartsWith(fullname, "calibre_plugins") then None
    else
      var parts := Split(fullname, '.');
      if parts[0] != "calibre_plugins" then None
      else if |parts| == 1 then
        Some(ModuleSpec(fullname, Loader(None, None, None, [], None, true, [])))
      else if parts[1] !in loaded then None
      else
        var l := loaded[parts[1]];
        var asked := RequestedName(parts);
        var fip :=
          if Lookup(l.names, asked).Some? then Some(asked)
          else if Lookup(l.names, asked + ".__init__").Some? then Some(asked + ".__init__")
          else None;
        if fip.None? then None
        else
          var isPackage := Count(fullname, '.') < 2 || fip.value == "__init__"
                           || (fip.value != [] && EndsWith(fip.value, ".__init__"));
          var filename := if l.zipPath != [] then Some(JoinAll(l.zipPath, Split(fip.value, '.')) + ".py") else None;
          Some(ModuleSpec(fullname, Loader(Some(parts[1]), fip, Some(l.zipPath), l.names, filename, isPackage, l.allNames)))
  }

  /** A module is found exactly when it is `calibre_plugins` itself, or its plugin is loaded and holds the module or its `__init__`. */
  lemma FindSpecFound(fullname: string, loaded: map<string, Loaded>)
    ensures var parts := Split(fullname, '.');
            FindSpec(fullname, loaded).Some?
            <==> parts[0] == "calibre_plugins"
                 && (|parts| == 1
                     || (parts[1] in loaded
                         && (Lookup(loaded[parts[1]].names, RequestedName(parts)).Some?
                             || Lookup(loaded[parts[1]].names, RequestedName(parts) + ".__init__").Some?)))
  {
    var parts := Split(fullname, '.');
    if parts[0] == "calibre_plugins" {
      JoinSplit(fullname, '.');
      if |parts| == 1 {
        assert fullname == parts[0];
      } else {
        assert fullname == parts[0] + "." + Join(parts[1..], ".");
      }
      assert StartsWith(fullname, "calibre_plugins");
    }
  }

  /** A found module resolves to the name asked for when the plugin holds it, else to that name's `__init__`. */
  lemma FindSpecResolves(fullname: string, loaded: map<string, Loaded>)
    requires FindSpec(fullname, loaded).Some? && |Split(fullname, '.')| >= 2
    ensures var parts := Split(fullname, '.');
            var asked := RequestedName(parts);
            var l := FindSpec(fullname, loaded).value.loader;
            l.pluginName == Some(parts[1]) && l.inPlugin.Some?
            && Lookup(loaded[parts[1]].names, l.inPlugin.value).Some?
            && (Lookup(loaded[parts[1]].names, asked).Some? ==> l.inPlugin == Some(asked))
            && (Lookup(loaded[parts[1]].names, asked).None? ==> l.inPlugin == Some(asked + ".__init__"))
  {
  }

  /**
   * `is_package` holds exactly when the name has under two dots, the module
   * asked for is an `__init__`, or the plugin lacks it and its `__init__` is
   * used instead.
   */
  lemma IsPackageExactly(fullname: string, loaded: map<string, Loaded>)
    requires FindSpec(fullname, loaded).Some? && |Split(fullname, '.')| >= 2
    ensures var parts := Split(fullname, '.');
            var asked := RequestedName(parts);
            FindSpec(fullname, loaded).value.loader.isPackage
            <==> Count(fullname, '.') < 2 || asked == "__init__" || EndsWith(asked, ".__init__")
                 || Lookup(loaded[parts[1]].names, asked).None?
  {
    var parts := Split(fullname, '.');
    var asked := RequestedName(parts);
    if Lookup(loaded[parts[1]].names, asked).None? {
      var s := asked + ".__init__";
      assert s[|s| - 9..] == ".__init__";
    }
  }

  /** A plugin's top-level module, and any module found through the `__init__` fallback, is a package. */
  lemma PluginRootIsPackage(fullname: string, loaded: map<string, Loaded>)
    requires FindSpec(fullname, loaded).Some? && |Split(fullname, '.')| >= 2
    requires |Split(fullname, '.')| == 2
             || Lookup(loaded[Split(fullname, '.')[1]].names, RequestedName(Split(fullname, '.'))).None?
    ensures FindSpec(fullname, loaded).value.loader.isPackage
  {
    var parts := Split(fullname, '.');
    if |parts| == 2 {
      CountSplit(fullname, '.');
    } else {
      var asked := RequestedName(parts);
      var s := asked + ".__init__";
      assert s[|s| - 9..] == ".__init__";
    }
  }

  // ---------------------------------------------------------------- package resources

  /** An entry directly inside the directory prefix `base` (`''` is the top level). */
  predicate DirectChild(base: string, x: string) {
    if base == [] then '/' !in x else StartsWith(x, base) && '/' !in x[|base|..]
  }

  /** The entries of `all` directly inside `base`, in order. */
  function ChildrenOf(all: seq<string>, base: string): (r: seq<string>)
    ensures forall x :: x in r <==> x in all && DirectChild(base, x)
    decreases |all|
  {
    if all == [] then []
    else (if DirectChild(base, all[0]) then [all[0]] else []) + ChildrenOf(all[1..], base)
  }

  /** The zip entry of the loader's module, if it has one. */
  function EntryOf(l: Loader): Option<string> {
    if l.inPlugin.Some? then Lookup(l.names, l.inPlugin.value) else None
  }

  /** The directory prefix of a zip entry: its dirname and a `/`, or nothing at the top level. */
  function DirPrefix(entry: string): string {
    var d := Dirname(entry);
    if d != [] then d + "/" else []
  }

  /** `contents`: the entries directly inside the package's directory; nothing for a non-package. */
  function Contents(l: Loader): (r: seq<string>)
    ensures !l.isPackage || EntryOf(l).None? ==> r == []
    ensures l.isPackage && EntryOf(l).Some? ==>
              forall x :: x in r <==> x in l.allNames && DirectChild(DirPrefix(EntryOf(l).value), x)
  {
    if !l.isPackage then []
    else
      match EntryOf(l)
      case None => []
      case Some(entry) => ChildrenOf(l.allNames, DirPrefix(entry))
  }

  /** `is_resource`: the name, joined to the module's directory, is an entry of the zip. */
  function IsResource(l: Loader, name: string): bool {
    match EntryOf(l)
    case None => false
    case Some(entry) => Join2(Dirname(entry), name) in l.allNames
  }

  /**
   * For a package, a plain file name is a resource exactly when the entry it
   * names is among the package's contents.
   */
  lemma ResourceIsContent(l: Loader, name: string)
    requires l.isPackage && EntryOf(l).Some?
    requires name != [] && '/' !in name
    requires !EndsWith(Dirname(EntryOf(l).value), "/")
    ensures IsResource(l, name) <==> Join2(Dirname(EntryOf(l).value), name) in Contents(l)
  {
    var d := Dirname(EntryOf(l).value);
    var q := Join2(d, name);
    assert !StartsWith(name, "/") by { assert name[0] != '/'; }
    if d == [] {
      assert q == name;
    } else {
      var base := d + "/";
      assert q == base + name;
      assert q[|base|..] == name;
      assert DirectChild(base, q);
    }
  }

  // ---------------------------------------------------------------- get_resources

  datatype Request = OneName(name: string) | NameList(names: seq<string>)

  datatype Resources = Single(data: Option<seq<byte>>) | Several(found: map<string, seq<byte>>)

  /** The names a request asks for: a single name is a one-element list. */
  function RequestedNames(request: Request): seq<string> {
    if request.OneName? then [request.name] else request.names
  }

  /**
   * `get_resources` over the zip's contents `zip`: the entries found, by
   * name; when exactly one name is asked for, just its data or `None`.
   */
  method GetResources(zip: map<string, seq<byte>>, request: Request) returns (r: Resources)
    ensures var names := RequestedNames(request);
            if |names| == 1 then r == Single(if names[0] in zip then Some(zip[names[0]]) else None)
            else r.Several? && (forall n :: n in r.found <==> n in names && n in zip)
                 && forall n :: n in r.found ==> r.found[n] == zip[n]
  {
    var names := RequestedNames(request);
    var ans: map<string, seq<byte>> := map[];
    var i := 0;
    while i < |names|
      invariant 0 <= i <= |names|
      invariant forall n :: n in ans <==> n in names[..i] && n in zip
      invariant forall n :: n in ans ==> ans[n] == zip[n]
    {
      assert names[..i + 1] == names[..i] + [names[i]];
      if names[i] in zip {
        ans := ans[names[i] := zip[names[i]]];
      }
      i := i + 1;
    }
    assert names[..i] == names;
    if |names| == 1 {
      r := Single(if names[0] in ans then Some(ans[names[0]]) else None);
    } else {
      r := Several(ans);
    }
  }
}
