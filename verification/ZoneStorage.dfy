/** Storing views and their zones in memory and on disk (agent/zoneinventory.go). */
module ZoneStorage {
  import opened Wrappers
  import opened Orders
  import opened Names
  import opened ZoneSearch
  import opened ZoneViews

  datatype ViewData = ViewData(name: string, zones: seq<Zone>)

  /** A directory of zone files. The file's content is the zone it encodes. */
  type Files = map<string, Zone>

  /** The views directory: one directory of zone files for each view. */
  type Dirs = map<string, Files>

  /** The file a name leads to lies in the directory itself. The empty name and "." lead to
      the directory, ".." leads to its parent, and a name with a slash leads elsewhere. */
  predicate IsFileName(name: string) {
    name !in {"", ".", ".."} && '/' !in name
  }

  predicate AllFileNames(zones: seq<Zone>) {
    forall z :: z in zones ==> IsFileName(z.name)
  }

  // The file that holds the time of the last population; it lies beside the view directories.
  const META_FILE_NAME := "zone-inventory.json"

  /** Names that lead to directories of their own. */
  predicate HaveDirectories(views: seq<ViewData>) {
    forall v :: v in views ==> IsFileName(v.name) && v.name != META_FILE_NAME
  }

  // Listing directories

  ghost function Enumerated(names: set<string>): (s: seq<string>)
    ensures multiset(s) == multiset(names)
  {
    if names == {} then []
    else
      var n :| n in names;
      assert multiset(names) == multiset{n} + multiset(names - {n});
      [n] + Enumerated(names - {n})
  }

  /** The names in a directory, sorted the way a directory listing returns them. */
  ghost function Entries(names: set<string>): seq<string> {
    SortBy(TextOrder, Enumerated(names))
  }

  lemma SortedEnumeration(s: seq<string>, names: set<string>)
    requires multiset(s) == multiset(names)
    ensures StrictlySorted(TextOrder, SortBy(TextOrder, s))
    ensures multiset(SortBy(TextOrder, s)) == multiset(names)
    ensures forall n :: n in SortBy(TextOrder, s) <==> n in names
  {
    hide TextOrder;
    TextOrderIsTotal();
    SortBySorted(TextOrder, s);
    var e := SortBy(TextOrder, s);
    assert forall n :: n in e <==> n in multiset(e);
    forall i, j | 0 <= i < j < |e| ensures e[i] != e[j] {
      OccursOnce(e, names, i, j);
    }
  }

  lemma EntriesMeaning(names: set<string>)
    ensures StrictlySorted(TextOrder, Entries(names))
    ensures forall n :: n in Entries(names) <==> n in names
    ensures multiset(Entries(names)) == multiset(names)
  {
    SortedEnumeration(Enumerated(names), names);
  }

  lemma EntriesUnique(names: set<string>, s: seq<string>)
    requires StrictlySorted(TextOrder, s) && forall n :: n in s <==> n in names
    ensures Entries(names) == s
  {
    hide TextOrder;
    TextOrderIsTotal();
    EntriesMeaning(names);
    StrictlySortedUnique(TextOrder, Entries(names), s);
  }

  /** Listing a directory: the entries come in whatever order, and are then sorted. */
  method ReadDir(names: set<string>) returns (entries: seq<string>)
    ensures entries == Entries(names)
  {
    hide TextOrder;
    var found: seq<string> := [];
    var rest := names;
    while rest != {}
      invariant rest <= names && multiset(found) + multiset(rest) == multiset(names)
    {
      var n :| n in rest;
      assert multiset(rest) == multiset{n} + multiset(rest - {n});
      found := found + [n];
      rest := rest - {n};
    }
    SortedEnumeration(found, names);
    EntriesUnique(names, SortBy(TextOrder, found));
    entries := SortBy(TextOrder, found);
  }

  // Writing

  /** Writes zone files one by one, stopping at the first that cannot be created. */
  function WriteZones(zones: seq<Zone>, files: Files): Files {
    if zones == [] || !IsFileName(zones[0].name) then files
    else WriteZones(zones[1..], files[zones[0].name := zones[0]])
  }

  /** Recreates view directories one by one, stopping after the first incomplete one. */
  function WriteViews(views: seq<ViewData>, dirs: Dirs): Dirs {
    if views == [] then dirs
    else
      var more := dirs[views[0].name := WriteZones(views[0].zones, map[])];
      if AllFileNames(views[0].zones) then WriteViews(views[1..], more) else more
  }

  // Reading

  function ViewPasses(name: string, filter: Option<ZoneFilter>): bool {
    filter.None? || filter.value.view.None? || filter.value.view.value == name
  }

  /** One item for each view the filter lets through, with the zones it lets through. */
  type Stream = seq<(string, seq<Zone>)>

  /** Streaming views held in memory. */
  function MemoryStream(views: seq<ViewData>, filter: Option<ZoneFilter>): Stream {
    if views == [] then []
    else if ViewPasses(views[0].name, filter)
    then [(views[0].name, Selected(views[0].zones, filter))] + MemoryStream(views[1..], filter)
    else MemoryStream(views[1..], filter)
  }

  /** The names of zone files in DNS order. */
  ghost function ZoneFileNames(files: Files): seq<string> {
    SortBy(NameOrder, Entries(files.Keys))
  }

  function Contents(names: seq<string>, files: Files): (zones: seq<Zone>)
    requires forall n :: n in names ==> n in files
    ensures |zones| == |names| && forall i :: 0 <= i < |names| ==> zones[i] == files[names[i]]
  {
    seq(|names|, i requires 0 <= i < |names| => files[names[i]])
  }

  /** Streaming the zone files of one view. */
  ghost function FileStream(files: Files, filter: Option<ZoneFilter>): seq<Zone> {
    ZoneFileNamesMeaning(files);
    var names := ZoneFileNames(files);
    SelectedByName(names, Contents(names, files), filter)
  }

  /** Streaming view directories with the given names. */
  ghost function DirStream(names: seq<string>, dirs: Dirs, filter: Option<ZoneFilter>): Stream
    requires forall n :: n in names ==> n in dirs
  {
    if names == [] then []
    else if ViewPasses(names[0], filter)
    then [(names[0], FileStream(dirs[names[0]], filter))] + DirStream(names[1..], dirs, filter)
    else DirStream(names[1..], dirs, filter)
  }

  /** Streaming views from their directories. */
  ghost function DiskStream(dirs: Dirs, filter: Option<ZoneFilter>): Stream {
    EntriesMeaning(dirs.Keys);
    DirStream(Entries(dirs.Keys), dirs, filter)
  }

  /** Reading the zone files of one view into memory. */
  ghost function LoadedView(name: string, files: Files): ViewData {
    EntriesMeaning(files.Keys);
    ViewData(name, SortBy(ZoneOrder, Contents(Entries(files.Keys), files)))
  }

  ghost function LoadedDirs(names: seq<string>, dirs: Dirs): (views: seq<ViewData>)
    requires forall n :: n in names ==> n in dirs
    ensures |views| == |names|
    ensures forall i :: 0 <= i < |names| ==> views[i] == LoadedView(names[i], dirs[names[i]])
  {
    seq(|names|, i requires 0 <= i < |names| => LoadedView(names[i], dirs[names[i]]))
  }

  /** Reading all view directories into memory. */
  ghost function LoadedViews(dirs: Dirs): seq<ViewData> {
    EntriesMeaning(dirs.Keys);
    LoadedDirs(Entries(dirs.Keys), dirs)
  }

  lemma ZoneFileNamesMeaning(files: Files)
    ensures Sorted(NameOrder, ZoneFileNames(files))
    ensures forall n :: n in ZoneFileNames(files) <==> n in files
  {
    hide NameOrder, TextOrder;
    NameOrderIsTotal();
    EntriesMeaning(files.Keys);
    SortBySorted(NameOrder, Entries(files.Keys));
    forall n ensures n in ZoneFileNames(files) <==> n in files {
      assert n in ZoneFileNames(files) <==> n in multiset(ZoneFileNames(files));
    }
  }

  // Agreement of the storages

  function ViewNames(views: seq<ViewData>): (names: seq<string>)
    ensures |names| == |views| && forall i :: 0 <= i < |views| ==> names[i] == views[i].name
  {
    seq(|views|, i requires 0 <= i < |views| => views[i].name)
  }

  /** Views with distinct directory names, sorted by name, and zones distinct in DNS order. */
  ghost predicate Proper(views: seq<ViewData>) {
    && HaveDirectories(views)
    && StrictlySorted(TextOrder, ViewNames(views))
    && forall v :: v in views ==> StrictlySorted(ZoneOrder, v.zones)
  }

  /** Every file is named after the zone it holds. */
  predicate NamedAfterZones(files: Files) {
    forall n :: n in files ==> files[n].name == n
  }

  predicate WellKept(dirs: Dirs) {
    forall v :: v in dirs ==> NamedAfterZones(dirs[v])
  }

  lemma {:induction false} WrittenFiles(zones: seq<Zone>, files: Files)
    ensures files.Keys <= WriteZones(zones, files).Keys
    ensures forall n :: n in WriteZones(zones, files) && n !in files ==> IsFileName(n)
    ensures NamedAfterZones(files) ==> NamedAfterZones(WriteZones(zones, files))
    ensures AllFileNames(zones) ==>
      forall n :: n in WriteZones(zones, files) <==> n in files || n in ZoneNames(zones)
  {
    if zones != [] && IsFileName(zones[0].name) {
      WrittenFiles(zones[1..], files[zones[0].name := zones[0]]);
      assert ZoneNames(zones) == [zones[0].name] + ZoneNames(zones[1..]);
    }
  }

  lemma {:induction false} WrittenContent(zones: seq<Zone>, files: Files, i: nat)
    requires AllFileNames(zones) && i < |zones|
    requires forall j, k :: 0 <= j < k < |zones| ==> zones[j].name != zones[k].name
    ensures zones[i].name in WriteZones(zones, files) && WriteZones(zones, files)[zones[i].name] == zones[i]
  {
    var more := files[zones[0].name := zones[0]];
    if i > 0 {
      WrittenContent(zones[1..], more, i - 1);
    } else {
      KeptContent(zones[1..], more, zones[0].name);
    }
  }

  lemma {:induction false} KeptContent(zones: seq<Zone>, files: Files, name: string)
    requires name in files && forall z :: z in zones ==> z.name != name
    ensures name in WriteZones(zones, files) && WriteZones(zones, files)[name] == files[name]
  {
    if zones != [] && IsFileName(zones[0].name) {
      KeptContent(zones[1..], files[zones[0].name := zones[0]], name);
    }
  }

  lemma DistinctNames(zones: seq<Zone>)
    requires StrictlySorted(ZoneOrder, zones)
    ensures StrictlySorted(NameOrder, ZoneNames(zones))
    ensures forall j, k :: 0 <= j < k < |zones| ==> zones[j].name != zones[k].name
  {
    hide NameOrder;
    var names := ZoneNames(zones);
    forall j, k | 0 <= j < k < |zones|
      ensures NameOrder(names[j], names[k]) < 0 && zones[j].name != zones[k].name
    {
      assert ZoneOrder(zones[j], zones[k]) < 0;
      OrderZero(zones[j].name, zones[k].name);
    }
  }

  lemma SortedPair(s: seq<string>, keys: set<string>, names: seq<string>, i: nat, j: nat)
    requires StrictlySorted(NameOrder, names) && forall n :: n in names <==> n in keys
    requires multiset(s) == multiset(keys) && i < j < |s| && NameOrder(s[i], s[j]) <= 0
    ensures NameOrder(s[i], s[j]) < 0
  {
    hide NameOrder;
    OccursOnce(s, keys, i, j);
    assert s[i] in multiset(s) && s[j] in multiset(s);
    NameOrderIsTotal();
    StrictApart(NameOrder, names, s[i], s[j]);
  }

  /** Sorting the listed names of distinct zones gives the names in DNS order. */
  lemma SortedEntries(keys: set<string>, names: seq<string>)
    requires StrictlySorted(NameOrder, names) && forall n :: n in names <==> n in keys
    ensures SortBy(NameOrder, Entries(keys)) == names
  {
    hide NameOrder, TextOrder, SortBy, IsOrder;
    NameOrderIsTotal();
    EntriesMeaning(keys);
    SortBySorted(NameOrder, Entries(keys));
    var s := SortBy(NameOrder, Entries(keys));
    forall i, j | 0 <= i < j < |s| ensures NameOrder(s[i], s[j]) < 0 {
      SortedPair(s, keys, names, i, j);
    }
    assert forall n :: n in s <==> n in multiset(s);
    StrictlySortedUnique(NameOrder, s, names);
  }

  /** Zone files written for distinct zones are listed in the order of the zones, with the
      zones as their contents. */
  lemma FilesOfZones(zones: seq<Zone>)
    requires StrictlySorted(ZoneOrder, zones) && AllFileNames(zones)
    ensures ZoneFileNames(WriteZones(zones, map[])) == ZoneNames(zones)
    ensures forall n :: n in ZoneNames(zones) <==> n in WriteZones(zones, map[])
    ensures Contents(ZoneNames(zones), WriteZones(zones, map[])) == zones
  {
    hide NameOrder, TextOrder, WriteZones, IsFileName;
    var files, names := WriteZones(zones, map[]), ZoneNames(zones);
    WrittenFiles(zones, map[]);
    DistinctNames(zones);
    forall i | 0 <= i < |zones| ensures names[i] in files && files[names[i]] == zones[i] {
      WrittenContent(zones, map[], i);
    }
    SortedEntries(files.Keys, names);
  }

  // Streaming from disk is streaming what would be loaded

  lemma InsertMembers(n: string, names: seq<string>)
    ensures forall m :: m in Insert(NameOrder, n, names) <==> m == n || m in names
  {
    hide NameOrder;
    InsertElements(NameOrder, n, names);
    var r := Insert(NameOrder, n, names);
    assert forall m :: m in r <==> m in multiset(r);
  }

  lemma ContentsFirst(n: string, names: seq<string>, files: Files)
    requires n in files && forall m :: m in names ==> m in files
    ensures forall m :: m in [n] + names ==> m in files
    ensures Contents([n] + names, files) == [files[n]] + Contents(names, files)
  {
  }

  lemma {:induction false} InsertContent(n: string, names: seq<string>, files: Files)
    requires NamedAfterZones(files) && n in files && forall m :: m in names ==> m in files
    ensures forall m :: m in Insert(NameOrder, n, names) ==> m in files
    ensures Insert(ZoneOrder, files[n], Contents(names, files)) == Contents(Insert(NameOrder, n, names), files)
  {
    hide NameOrder, Contents;
    InsertMembers(n, names);
    if names == [] {
      ContentsFirst(n, [], files);
    } else {
      var first, rest := names[0], names[1..];
      assert names == [first] + rest;
      ContentsFirst(first, rest, files);
      var zones := Contents(rest, files);
      assert ([files[first]] + zones)[1..] == zones;
      if NameOrder(n, first) > 0 {
        InsertContent(n, rest, files);
        ContentsFirst(first, Insert(NameOrder, n, rest), files);
      } else {
        ContentsFirst(n, names, files);
      }
    }
  }

  lemma {:induction false} SortContents(names: seq<string>, files: Files)
    requires NamedAfterZones(files) && forall n :: n in names ==> n in files
    ensures forall n :: n in SortBy(NameOrder, names) ==> n in files
    ensures SortBy(ZoneOrder, Contents(names, files)) == Contents(SortBy(NameOrder, names), files)
  {
    hide NameOrder, ZoneOrder;
    if names != [] {
      assert Contents(names, files)[1..] == Contents(names[1..], files);
      SortContents(names[1..], files);
      InsertContent(names[0], SortBy(NameOrder, names[1..]), files);
    }
  }

  lemma FileStreamIsLoaded(files: Files, filter: Option<ZoneFilter>)
    requires NamedAfterZones(files)
    ensures FileStream(files, filter) == Selected(LoadedView("", files).zones, filter)
  {
    hide NameOrder, TextOrder, SelectedByName, SortBy, Entries;
    EntriesMeaning(files.Keys);
    ZoneFileNamesMeaning(files);
    SortContents(Entries(files.Keys), files);
    var names := ZoneFileNames(files);
    assert ZoneNames(Contents(names, files)) == names;
  }

  lemma {:induction false} DirStreamIsLoaded(names: seq<string>, dirs: Dirs, filter: Option<ZoneFilter>)
    requires WellKept(dirs) && forall n :: n in names ==> n in dirs
    ensures DirStream(names, dirs, filter) == MemoryStream(LoadedDirs(names, dirs), filter)
  {
    hide FileStream, Selected, LoadedView;
    if names != [] {
      var views := LoadedDirs(names, dirs);
      assert views[1..] == LoadedDirs(names[1..], dirs);
      DirStreamIsLoaded(names[1..], dirs, filter);
      LoadedName(names[0], dirs[names[0]]);
      FileStreamIsLoaded(dirs[names[0]], filter);
    }
  }

  lemma LoadedName(name: string, files: Files)
    ensures LoadedView(name, files).name == name
    ensures LoadedView(name, files).zones == LoadedView("", files).zones
  {
  }

  /** For every filter, streaming view directories gives what streaming the same views from
      memory would give after loading them. */
  lemma DiskStreamsLikeMemory(dirs: Dirs, filter: Option<ZoneFilter>)
    requires WellKept(dirs)
    ensures DiskStream(dirs, filter) == MemoryStream(LoadedViews(dirs), filter)
  {
    hide Entries;
    EntriesMeaning(dirs.Keys);
    DirStreamIsLoaded(Entries(dirs.Keys), dirs, filter);
  }

  // What was saved is what is loaded

  lemma {:induction false} KeptDir(views: seq<ViewData>, dirs: Dirs, name: string)
    requires name in dirs && forall v :: v in views ==> v.name != name
    ensures name in WriteViews(views, dirs) && WriteViews(views, dirs)[name] == dirs[name]
  {
    if views != [] {
      KeptDir(views[1..], dirs[views[0].name := WriteZones(views[0].zones, map[])], name);
    }
  }

  lemma FirstDirWritten(views: seq<ViewData>, dirs: Dirs)
    requires views != []
    ensures var more := dirs[views[0].name := WriteZones(views[0].zones, map[])];
      && WriteViews(views, dirs) == (if AllFileNames(views[0].zones) then WriteViews(views[1..], more) else more)
      && (WellKept(dirs) ==> WellKept(more))
      && (forall n :: n in more <==> n in dirs || n == views[0].name)
  {
    hide WriteZones, AllFileNames, NamedAfterZones, IsFileName;
    WrittenFiles(views[0].zones, map[]);
    EmptyIsNamed();
  }

  lemma {:induction false} WrittenDirs(views: seq<ViewData>, dirs: Dirs)
    ensures dirs.Keys <= WriteViews(views, dirs).Keys
    ensures WellKept(dirs) ==> WellKept(WriteViews(views, dirs))
    ensures (forall v :: v in views ==> AllFileNames(v.zones)) ==>
      forall n :: n in WriteViews(views, dirs) <==> n in dirs || n in ViewNames(views)
  {
    hide AllFileNames, WellKept;
    if views == [] {
      assert WriteViews(views, dirs) == dirs;
    } else {
      hide WriteViews;
      FirstDirWritten(views, dirs);
      WrittenDirs(views[1..], dirs[views[0].name := WriteZones(views[0].zones, map[])]);
      assert ViewNames(views) == [views[0].name] + ViewNames(views[1..]);
      assert views[0] in views && forall v :: v in views[1..] ==> v in views;
    }
  }

  lemma EmptyIsNamed()
    ensures NamedAfterZones(map[])
  {
  }

  /** Every directory up to and including that of the first incomplete view is the one
      written for its view. */
  lemma {:induction false} WrittenDir(views: seq<ViewData>, dirs: Dirs, i: nat)
    requires i < |views| && forall j, k :: 0 <= j < k < |views| ==> views[j].name != views[k].name
    requires forall j :: 0 <= j < i ==> AllFileNames(views[j].zones)
    ensures views[i].name in WriteViews(views, dirs)
    ensures WriteViews(views, dirs)[views[i].name] == WriteZones(views[i].zones, map[])
  {
    hide WriteZones, AllFileNames;
    var more := dirs[views[0].name := WriteZones(views[0].zones, map[])];
    if i > 0 {
      WrittenDir(views[1..], more, i - 1);
    } else if AllFileNames(views[0].zones) {
      KeptDir(views[1..], more, views[0].name);
    }
  }

  /** All zones can be stored as files, and no directories are left over from other views. */
  predicate Storable(views: seq<ViewData>, dirs: Dirs) {
    && (forall v :: v in views ==> AllFileNames(v.zones))
    && (forall n :: n in dirs ==> n in ViewNames(views))
  }

  lemma LoadedZones(zones: seq<Zone>)
    requires StrictlySorted(ZoneOrder, zones) && AllFileNames(zones)
    ensures LoadedView("", WriteZones(zones, map[])).zones == zones
  {
    hide NameOrder, TextOrder, SortBy, WriteZones, Entries, IsFileName;
    var files := WriteZones(zones, map[]);
    EntriesMeaning(files.Keys);
    WrittenFiles(zones, map[]);
    SortContents(Entries(files.Keys), files);
    FilesOfZones(zones);
  }

  /** Only zones stored as files can be loaded. */
  lemma LoadedFromFiles(zones: seq<Zone>)
    ensures AllFileNames(LoadedView("", WriteZones(zones, map[])).zones)
  {
    hide NameOrder, TextOrder, SortBy, WriteZones, Entries, IsFileName;
    var files := WriteZones(zones, map[]);
    EntriesMeaning(files.Keys);
    WrittenFiles(zones, map[]);
    ZoneOrderIsOrder();
    var contents := Contents(Entries(files.Keys), files);
    SortBySorted(ZoneOrder, contents);
    forall z | z in SortBy(ZoneOrder, contents) ensures IsFileName(z.name) {
      assert z in multiset(SortBy(ZoneOrder, contents));
      assert z in contents;
    }
  }

  lemma FirstIncomplete(views: seq<ViewData>) returns (i: nat)
    requires exists v :: v in views && !AllFileNames(v.zones)
    ensures i < |views| && !AllFileNames(views[i].zones)
    ensures forall j :: 0 <= j < i ==> AllFileNames(views[j].zones)
  {
    hide AllFileNames;
    if AllFileNames(views[0].zones) {
      assert forall v :: v in views <==> v == views[0] || v in views[1..];
      i := FirstIncomplete(views[1..]);
      i := i + 1;
    } else {
      i := 0;
    }
  }

  lemma DistinctViews(views: seq<ViewData>)
    requires Proper(views)
    ensures forall j, k :: 0 <= j < k < |views| ==> views[j].name != views[k].name
  {
    hide TextOrder;
    TextOrderIsTotal();
    var names := ViewNames(views);
    assert forall j, k :: 0 <= j < k < |views| ==> TextOrder(names[j], names[k]) < 0;
  }

  lemma StorableIsLoaded(views: seq<ViewData>, dirs: Dirs)
    requires Proper(views) && Storable(views, dirs)
    ensures LoadedViews(WriteViews(views, dirs)) == views
  {
    hide TextOrder, ZoneOrder, WriteViews, WriteZones, AllFileNames, Entries, LoadedView, StrictlySorted;
    var saved := WriteViews(views, dirs);
    WrittenDirs(views, dirs);
    DistinctViews(views);
    EntriesUnique(saved.Keys, ViewNames(views));
    forall i | 0 <= i < |views| ensures LoadedViews(saved)[i] == views[i] {
      WrittenDir(views, dirs, i);
      LoadedName(views[i].name, saved[views[i].name]);
      LoadedZones(views[i].zones);
    }
  }

  /** Nothing but the directories of the views is found, in the order of the views. */
  lemma LoadedNames(views: seq<ViewData>, saved: Dirs)
    requires Proper(views) && LoadedViews(saved) == views
    ensures ViewNames(views) == Entries(saved.Keys)
  {
    hide TextOrder, ZoneOrder, Entries, LoadedView, StrictlySorted, Proper;
    EntriesMeaning(saved.Keys);
    var entries := Entries(saved.Keys);
    forall i | 0 <= i < |views| ensures ViewNames(views)[i] == entries[i] {
      LoadedName(entries[i], saved[entries[i]]);
    }
  }

  lemma IncompleteIsNotLoaded(views: seq<ViewData>, dirs: Dirs)
    requires Proper(views) && LoadedViews(WriteViews(views, dirs)) == views
    ensures forall v :: v in views ==> AllFileNames(v.zones)
  {
    hide TextOrder, ZoneOrder, WriteViews, WriteZones, AllFileNames, Entries, LoadedView, StrictlySorted;
    if exists v :: v in views && !AllFileNames(v.zones) {
      var saved := WriteViews(views, dirs);
      DistinctViews(views);
      LoadedNames(views, saved);
      var i := FirstIncomplete(views);
      WrittenDir(views, dirs, i);
      LoadedName(views[i].name, saved[views[i].name]);
      LoadedFromFiles(views[i].zones);
    }
  }

  lemma LoadedIsStorable(views: seq<ViewData>, dirs: Dirs)
    requires Proper(views) && LoadedViews(WriteViews(views, dirs)) == views
    ensures Storable(views, dirs)
  {
    hide WriteViews, AllFileNames, Entries, LoadedViews, Proper;
    var saved := WriteViews(views, dirs);
    WrittenDirs(views, dirs);
    EntriesMeaning(saved.Keys);
    LoadedNames(views, saved);
    IncompleteIsNotLoaded(views, dirs);
  }

  /** Saving views to disk and loading them back restores them exactly when every zone can
      be stored as a file and no view directory is left over. */
  lemma SavedViewsAreLoaded(views: seq<ViewData>, dirs: Dirs)
    requires Proper(views)
    ensures LoadedViews(WriteViews(views, dirs)) == views <==> Storable(views, dirs)
  {
    hide Storable, LoadedViews;
    if Storable(views, dirs) {
      StorableIsLoaded(views, dirs);
    }
    if LoadedViews(WriteViews(views, dirs)) == views {
      LoadedIsStorable(views, dirs);
    }
  }

  lemma {:induction false} UnfilteredStream(views: seq<ViewData>)
    ensures |MemoryStream(views, None)| == |views|
    ensures forall i :: 0 <= i < |views| ==> MemoryStream(views, None)[i] == (views[i].name, views[i].zones)
  {
    if views != [] {
      UnfilteredStream(views[1..]);
    }
  }

  /** The disk and the memory storage, given the same views, stream the same for every filter
      under that same condition and no other. */
  lemma StoragesAgree(views: seq<ViewData>, dirs: Dirs)
    requires Proper(views) && WellKept(dirs)
    ensures (forall filter :: DiskStream(WriteViews(views, dirs), filter) == MemoryStream(views, filter))
       <==> Storable(views, dirs)
  {
    hide Storable, LoadedViews, DiskStream, MemoryStream, WriteViews, Proper, WellKept;
    var saved := WriteViews(views, dirs);
    var loaded := LoadedViews(saved);
    WrittenDirs(views, dirs);
    SavedViewsAreLoaded(views, dirs);
    forall filter ensures DiskStream(saved, filter) == MemoryStream(loaded, filter) {
      DiskStreamsLikeMemory(saved, filter);
    }
    if forall filter :: DiskStream(saved, filter) == MemoryStream(views, filter) {
      assert DiskStream(saved, None) == MemoryStream(views, None);
      UnfilteredStream(views);
      UnfilteredStream(loaded);
      forall i | 0 <= i < |views| ensures |loaded| == |views| && loaded[i] == views[i] {
        assert MemoryStream(loaded, None)[i] == MemoryStream(views, None)[i];
      }
      assert loaded == views;
    }
  }

  /** A root zone is one that is lost, although saving reports no error. */
  lemma RootZoneIsLost(zone: Zone)
    requires zone.name == "."
    ensures LoadedViews(WriteViews([ViewData("default", [zone])], map[])) != [ViewData("default", [zone])]
  {
    hide TextOrder, ZoneOrder, LoadedViews, WriteViews;
    var views := [ViewData("default", [zone])];
    assert Proper(views);
    assert views[0] in views && zone in views[0].zones;
    SavedViewsAreLoaded(views, map[]);
  }

  // Which views a filter lets through

  /** Whether a view is asked for: by its name, or because none is asked for by name. */
  function AskedFor(filter: Option<ZoneFilter>): ViewData -> bool {
    (v: ViewData) => filter.None? || filter.value.view == None || filter.value.view == Some(v.name)
  }

  /** In memory: the views that are asked for, once each and in their order, with what the filter
      selects of their zones. */
  lemma {:induction false} StreamedFromMemory(views: seq<ViewData>, filter: Option<ZoneFilter>)
    ensures var asked := Kept(views, AskedFor(filter));
      && |MemoryStream(views, filter)| == |asked|
      && forall k :: 0 <= k < |asked| ==>
           MemoryStream(views, filter)[k] == (asked[k].name, Selected(asked[k].zones, filter))
  {
    hide Selected, MemoryStream, Kept;
    if views == [] {
      NothingKept(views, AskedFor(filter));
      NothingStreamed(views, filter);
    } else {
      StreamedFromMemory(views[1..], filter);
      FirstKept(views, AskedFor(filter));
      FirstStreamed(views, filter);
    }
  }

  lemma NothingStreamed(views: seq<ViewData>, filter: Option<ZoneFilter>)
    requires views == []
    ensures MemoryStream(views, filter) == []
  {
  }

  lemma FirstStreamed(views: seq<ViewData>, filter: Option<ZoneFilter>)
    requires views != []
    ensures MemoryStream(views, filter)
         == (if AskedFor(filter)(views[0]) then [(views[0].name, Selected(views[0].zones, filter))] else [])
            + MemoryStream(views[1..], filter)
  {
    hide Selected;
  }

  function NameAskedFor(filter: Option<ZoneFilter>): string -> bool {
    (n: string) => filter.None? || filter.value.view == None || filter.value.view == Some(n)
  }

  /** From disk: the directories that are asked for, once each and in the order of their names, with
      what the filter selects of their files. */
  lemma StreamedFromDisk(dirs: Dirs, filter: Option<ZoneFilter>) returns (names: seq<string>)
    ensures StrictlySorted(TextOrder, names)
    ensures forall n :: n in names <==> n in dirs && NameAskedFor(filter)(n)
    ensures |DiskStream(dirs, filter)| == |names|
    ensures forall k :: 0 <= k < |names| ==>
      DiskStream(dirs, filter)[k] == (names[k], FileStream(dirs[names[k]], filter))
  {
    hide Entries, TextOrder, DirStream, Kept, FileStream, NameAskedFor;
    EntriesMeaning(dirs.Keys);
    var all := Entries(dirs.Keys);
    names := Kept(all, NameAskedFor(filter));
    var chosen := KeptMeaning(all, NameAskedFor(filter));
    StreamedDirs(all, dirs, filter);
    forall n ensures n in names <==> n in dirs && NameAskedFor(filter)(n) {
      InKept(all, NameAskedFor(filter), n);
    }
    forall i, j | 0 <= i < j < |names| ensures TextOrder(names[i], names[j]) < 0 {
      assert chosen[i] < chosen[j];
    }
  }

  lemma {:induction false} StreamedDirs(all: seq<string>, dirs: Dirs, filter: Option<ZoneFilter>)
    requires forall n :: n in all ==> n in dirs
    ensures forall n :: n in Kept(all, NameAskedFor(filter)) ==> n in dirs
    ensures var asked := Kept(all, NameAskedFor(filter));
      && |DirStream(all, dirs, filter)| == |asked|
      && forall k :: 0 <= k < |asked| ==>
           DirStream(all, dirs, filter)[k] == (asked[k], FileStream(dirs[asked[k]], filter))
  {
    hide FileStream, DirStream, Kept;
    if all == [] {
      NothingKept(all, NameAskedFor(filter));
      NoDirStream(all, dirs, filter);
    } else {
      StreamedDirs(all[1..], dirs, filter);
      FirstKept(all, NameAskedFor(filter));
      FirstDirStream(all, dirs, filter);
    }
  }

  lemma NoDirStream(all: seq<string>, dirs: Dirs, filter: Option<ZoneFilter>)
    requires all == []
    ensures DirStream(all, dirs, filter) == []
  {
  }

  lemma FirstDirStream(all: seq<string>, dirs: Dirs, filter: Option<ZoneFilter>)
    requires all != [] && forall n :: n in all ==> n in dirs
    ensures DirStream(all, dirs, filter)
         == (if NameAskedFor(filter)(all[0]) then [(all[0], FileStream(dirs[all[0]], filter))] else [])
            + DirStream(all[1..], dirs, filter)
  {
    hide FileStream;
  }

  // What is left when saving stops

  /** Files are written for the zones up to the first whose name is no file name in the directory,
      and for no others. */
  lemma {:induction false} FilesUntilRefused(zones: seq<Zone>, files: Files) returns (k: nat)
    ensures k <= |zones|
    ensures forall i :: 0 <= i < k ==> zones[i].name !in {"", ".", ".."} && '/' !in zones[i].name
    ensures k < |zones| ==> zones[k].name in {"", ".", ".."} || '/' in zones[k].name
    ensures forall n :: n in WriteZones(zones, files) <==> n in files || exists i :: 0 <= i < k && zones[i].name == n
  {
    if zones == [] || zones[0].name in {"", ".", ".."} || '/' in zones[0].name {
      k := 0;
    } else {
      var l := FilesUntilRefused(zones[1..], files[zones[0].name := zones[0]]);
      k := l + 1;
      assert forall i :: 0 <= i < l ==> zones[i + 1] == zones[1..][i];
    }
  }

  /** Saving stops behind the first view that has a zone which cannot be stored: the directories of
      the views behind it, and all other directories, are as they were. */
  lemma {:induction false} DirsBehindStay(views: seq<ViewData>, dirs: Dirs, i: nat, name: string)
    requires i < |views| && exists z :: z in views[i].zones && (z.name in {"", ".", ".."} || '/' in z.name)
    requires forall j :: 0 <= j <= i ==> views[j].name != name
    ensures name in WriteViews(views, dirs) <==> name in dirs
    ensures name in dirs ==> WriteViews(views, dirs)[name] == dirs[name]
  {
    hide WriteZones;
    if i > 0 {
      DirsBehindStay(views[1..], dirs[views[0].name := WriteZones(views[0].zones, map[])], i - 1, name);
    }
  }

  // The three storages

  class MemoryStorage {
    var views: Option<seq<ViewData>>

    constructor ()
      ensures views == None
    {
      views := None;
    }

    ghost predicate Valid()
      reads this
    {
      views.Some? ==> forall v :: v in views.value ==> Sorted(ZoneOrder, v.zones)
    }

    method SaveViews(newViews: seq<ViewData>)
      modifies this
      ensures views == Some(newViews)
    {
      views := Some(newViews);
    }

    lemma NextView(all: seq<ViewData>, i: nat, filter: Option<ZoneFilter>)
      requires i < |all|
      ensures MemoryStream(all[i..], filter)
           == (if ViewPasses(all[i].name, filter) then [(all[i].name, Selected(all[i].zones, filter))] else [])
              + MemoryStream(all[i + 1..], filter)
    {
      hide ViewPasses, Selected;
      assert all[i..][1..] == all[i + 1..];
    }

    method StreamViews(filter: Option<ZoneFilter>) returns (stream: Stream)
      requires Valid()
      ensures stream == if views.None? then [] else MemoryStream(views.value, filter)
    {
      hide ZoneOrder, NameOrder, SelectedByName, MemoryStream, ViewPasses;
      stream := [];
      if views.None? {
        return;
      }
      var all := views.value;
      for i := 0 to |all|
        invariant stream + MemoryStream(all[i..], filter) == MemoryStream(all, filter)
      {
        NextView(all, i, filter);
        if !ViewPasses(all[i].name, filter) {
          continue;
        }
        SortedZonesHaveSortedNames(all[i].zones);
        var yielded := IterateZones(ZoneNames(all[i].zones), all[i].zones, filter);
        assert stream + ([(all[i].name, yielded)] + MemoryStream(all[i + 1..], filter))
            == stream + [(all[i].name, yielded)] + MemoryStream(all[i + 1..], filter);
        stream := stream + [(all[i].name, yielded)];
      }
      NoViews(all[|all|..], filter);
    }

    lemma NoViews(all: seq<ViewData>, filter: Option<ZoneFilter>)
      requires all == []
      ensures MemoryStream(all, filter) == []
    {
    }
  }

  /** Loading crashes on a location that has no metadata, because none was ever saved there. */
  datatype LoadOutcome = LoadedAt(populatedAt: int) | NilDereference

  class DiskStorage {
    var dirs: Dirs
    // The content of the metadata file.
    var populatedAt: Option<int>

    constructor ()
      ensures dirs == map[] && populatedAt == None && Valid()
    {
      dirs := map[];
      populatedAt := None;
    }

    ghost predicate Valid()
      reads this
    {
      WellKept(dirs)
    }

    /** Writes the zone files of one view; `created` tells if all could be created. */
    method CreateView(zones: seq<Zone>) returns (files: Files, created: bool)
      ensures files == WriteZones(zones, map[]) && created == AllFileNames(zones)
    {
      files := map[];
      for i := 0 to |zones|
        invariant WriteZones(zones[i..], files) == WriteZones(zones, map[])
        invariant AllFileNames(zones[..i])
      {
        assert zones[i..][1..] == zones[i + 1..];
        if !IsFileName(zones[i].name) {
          assert zones[i] in zones;
          return files, false;
        }
        files := files[zones[i].name := zones[i]];
        assert zones[..i + 1] == zones[..i] + [zones[i]];
      }
      assert zones[..|zones|] == zones;
      created := true;
    }

    /** Replaces view directories. An error creating a view ends the loop but is overwritten
        by the outcome of saving the metadata, so that it is not reported. */
    method SaveViews(views: seq<ViewData>, now: int) returns (reported: bool)
      requires Valid() && HaveDirectories(views)
      modifies this
      ensures Valid() && dirs == WriteViews(views, old(dirs)) && !reported
      ensures populatedAt == Some(now)
    {
      hide WriteZones, AllFileNames;
      populatedAt := None;
      WrittenDirs(views, dirs);
      for i := 0 to |views|
        invariant WriteViews(views[i..], dirs) == WriteViews(views, old(dirs))
      {
        assert views[i..][1..] == views[i + 1..];
        var files, created := CreateView(views[i].zones);
        dirs := dirs[views[i].name := files];
        if !created {
          break;
        }
      }
      populatedAt := Some(now);
      reported := false;
    }

    /** Only the time is read; views are streamed from disk when they are asked for. */
    method LoadViews() returns (outcome: LoadOutcome)
      ensures outcome.NilDereference? <==> populatedAt == None
      ensures outcome.LoadedAt? ==> populatedAt == Some(outcome.populatedAt)
    {
      return if populatedAt.Some? then LoadedAt(populatedAt.value) else NilDereference;
    }

    method StreamFiles(files: Files, filter: Option<ZoneFilter>) returns (yielded: seq<Zone>)
      ensures yielded == FileStream(files, filter)
    {
      hide NameOrder, SelectedByName, Entries;
      ZoneFileNamesMeaning(files);
      var entries := ReadDir(files.Keys);
      var names := SortBy(NameOrder, entries);
      yielded := IterateZones(names, Contents(names, files), filter);
    }

    lemma NoDirs(names: seq<string>, filter: Option<ZoneFilter>)
      requires names == []
      ensures DirStream(names, dirs, filter) == []
    {
    }

    lemma NextDir(names: seq<string>, i: nat, filter: Option<ZoneFilter>)
      requires i < |names| && forall n :: n in names ==> n in dirs
      ensures forall n :: n in names[i..] || n in names[i + 1..] ==> n in dirs
      ensures DirStream(names[i..], dirs, filter)
           == (if ViewPasses(names[i], filter) then [(names[i], FileStream(dirs[names[i]], filter))] else [])
              + DirStream(names[i + 1..], dirs, filter)
    {
      hide FileStream;
      assert names[i..][1..] == names[i + 1..];
    }

    method StreamViews(filter: Option<ZoneFilter>) returns (stream: Stream)
      ensures stream == DiskStream(dirs, filter)
    {
      hide Entries, FileStream, DirStream, ViewPasses, SortBy;
      EntriesMeaning(dirs.Keys);
      var names := ReadDir(dirs.Keys);
      stream := [];
      for i := 0 to |names|
        invariant forall n :: n in names[i..] ==> n in dirs
        invariant stream + DirStream(names[i..], dirs, filter) == DirStream(names, dirs, filter)
      {
        NextDir(names, i, filter);
        ghost var rest := DirStream(names[i + 1..], dirs, filter);
        if !ViewPasses(names[i], filter) {
          continue;
        }
        var yielded := StreamFiles(dirs[names[i]], filter);
        assert stream + ([(names[i], yielded)] + rest) == stream + [(names[i], yielded)] + rest;
        stream := stream + [(names[i], yielded)];
      }
      NoDirs(names[|names|..], filter);
    }
  }

  /** Streams from memory, and keeps a copy on disk to load from. */
  class MemoryDiskStorage {
    const disk: DiskStorage
    const memory: MemoryStorage

    constructor ()
      ensures fresh(disk) && fresh(memory) && disk.Valid() && memory.views == None
    {
      disk := new DiskStorage();
      memory := new MemoryStorage();
    }

    method SaveViews(views: seq<ViewData>, now: int) returns (reported: bool)
      requires disk.Valid() && HaveDirectories(views)
      modifies disk, memory
      ensures disk.Valid() && disk.dirs == WriteViews(views, old(disk.dirs)) && disk.populatedAt == Some(now)
      ensures memory.views == Some(views) && !reported
    {
      reported := disk.SaveViews(views, now);
      if !reported {
        memory.SaveViews(views);
      }
    }

    /** Replaces the views in memory by those read from disk, exactly if views were ever saved
        there; otherwise it crashes and replaces nothing. */
    method LoadViews() returns (outcome: LoadOutcome)
      requires disk.Valid()
      modifies memory
      ensures outcome.NilDereference? <==> disk.populatedAt == None
      ensures outcome.LoadedAt? ==> disk.populatedAt == Some(outcome.populatedAt)
      ensures memory.views == if outcome.LoadedAt? then Some(LoadedViews(disk.dirs)) else old(memory.views)
    {
      hide Entries, SortBy;
      outcome := disk.LoadViews();
      if outcome.NilDereference? {
        return;
      }
      EntriesMeaning(disk.dirs.Keys);
      var names := ReadDir(disk.dirs.Keys);
      var views: seq<ViewData> := [];
      for i := 0 to |names|
        invariant views == LoadedDirs(names[..i], disk.dirs)
      {
        var files := disk.dirs[names[i]];
        var entries := ReadDir(files.Keys);
        EntriesMeaning(files.Keys);
        views := views + [ViewData(names[i], SortBy(ZoneOrder, Contents(entries, files)))];
      }
      assert names[..|names|] == names;
      memory.views := Some(views);
    }
  }
}
