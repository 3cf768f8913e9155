/** Recipe directories (src/recipe/directory.rs): every recipe lives in a
    directory named after its title, holding `<name>.recipe` and possibly an
    image `<name>.<ext>`. The file system is modelled as the parent
    directory's listing: the names of its sub-directories and, for each, the
    names of the regular files inside it. */
module Directories {
  import opened Wrappers
  import opened Strings
  import opened Numerals
  import opened Errors
  import opened Naming

  /** The extension of the recipe file. */
  const RECIPE_FILE_EXT: string := "recipe"

  /** The text around the number of a disambiguated directory name. */
  const NUMBER_PREFIX: string := " ("
  const NUMBER_SUFFIX: string := ")"

  // ---------------------------------------------------------------------
  // Titles and names

  /** `sanitize_title`: the trimmed title, unless nothing is left. */
  function SanitizeTitle(title: string): Result<string, Error> {
    var t := Trim(title);
    if t == [] then Err(EmptyRecipeTitle) else Ok(t)
  }

  /** `title_to_name`: the sanitized title made into a file name by
      `sanitize`, the file-name sanitizer of the host system. */
  function TitleToName(title: string, sanitize: string -> string): Result<string, Error> {
    var t :- SanitizeTitle(title);
    Ok(sanitize(t))
  }

  /** A title is rejected exactly when it is blank. */
  lemma BlankTitleRejected(title: string)
    ensures SanitizeTitle(title) == Err(EmptyRecipeTitle) <==> forall i :: 0 <= i < |title| ==> IsWhitespace(title[i])
  {
    TrimEmpty(title);
  }

  /** An accepted title is non-empty and has no surrounding whitespace, and
      sanitizing it again changes nothing. */
  lemma SanitizedTitle(title: string)
    requires SanitizeTitle(title).Ok?
    ensures var t := SanitizeTitle(title).value;
      t != [] && Trimmed(t) && SanitizeTitle(t) == Ok(t)
  {
    TrimIsTrimmed(title);
    TrimmedIsFixed(Trim(title));
  }

  /** Whitespace around a title does not change the directory name. */
  lemma TitleToNamePadded(left: string, title: string, right: string, sanitize: string -> string)
    requires forall i :: 0 <= i < |left| ==> IsWhitespace(left[i])
    requires forall i :: 0 <= i < |right| ==> IsWhitespace(right[i])
    requires title != [] && Trimmed(title)
    ensures TitleToName(left + title + right, sanitize) == Ok(sanitize(title))
  {
    TrimBothPadded(left, title, right);
  }

  // ---------------------------------------------------------------------
  // The parent directory

  /** The parent directory: its sub-directories with the regular files in
      each, and the files elsewhere that can be copied in. */
  class Disk {
    var dirs: map<string, set<string>>
    var outside: set<string>

    constructor(dirs: map<string, set<string>>, outside: set<string>)
      ensures this.dirs == dirs && this.outside == outside
    {
      this.dirs := dirs;
      this.outside := outside;
    }
  }

  /** The names that count as taken while probing: the siblings, except the
      directory's own current name when one is given. */
  function Free(taken: set<string>, current: Option<string>): (r: set<string>)
    ensures forall n :: n in r <==> n in taken && Some(n) != current
  {
    if current.Some? then taken - {current.value} else taken
  }

  /** What `find_available_name` returns: `"<name> (i)"` for the least
      `i >= 2` whose name is not a sibling or is the current name. */
  ghost function AvailableName(taken: set<string>, name: string, current: Option<string>): string {
    var free := Free(taken, current);
    assert Tried(name, NUMBER_PREFIX, NUMBER_SUFFIX, 2) == {};
    Numbered(name, NUMBER_PREFIX, NUMBER_SUFFIX, FirstFree(free, name, NUMBER_PREFIX, NUMBER_SUFFIX, 2))
  }

  /** The available name collides with no sibling other than the current
      name; it carries the least number from 2 on that does so; the number
      1 is never used. */
  lemma AvailableNameLeast(taken: set<string>, name: string, current: Option<string>)
    ensures var r := AvailableName(taken, name, current);
      && (r !in taken || Some(r) == current)
      && exists i :: && 2 <= i && r == Numbered(name, NUMBER_PREFIX, NUMBER_SUFFIX, i)
                     && forall j :: 2 <= j < i ==> Numbered(name, NUMBER_PREFIX, NUMBER_SUFFIX, j) in Free(taken, current)
  {
    var free := Free(taken, current);
    assert Tried(name, NUMBER_PREFIX, NUMBER_SUFFIX, 2) == {};
    FirstFreeLeast(free, name, NUMBER_PREFIX, NUMBER_SUFFIX, 2);
  }

  /** Without a current name, a taken name is disambiguated exactly as the
      in-memory `UniqueNameFinder` with `" ("` and `")"` would do it. */
  lemma AvailableNameAsFinder(taken: set<string>, name: string)
    requires name in taken
    ensures AvailableName(taken, name, None) == FindName(taken, name, NUMBER_PREFIX, NUMBER_SUFFIX)
  {
  }

  /** `find_available_name`: probe `" (2)"`, `" (3)"`, ... until a name is
      free or is the current one. */
  method FindAvailableName(disk: Disk, name: string, current: Option<string>) returns (r: string)
    ensures r == AvailableName(disk.dirs.Keys, name, current)
  {
    var free := Free(disk.dirs.Keys, current);
    var i := 2;
    assert Tried(name, NUMBER_PREFIX, NUMBER_SUFFIX, 2) == {};
    while Numbered(name, NUMBER_PREFIX, NUMBER_SUFFIX, i) in disk.dirs && Some(Numbered(name, NUMBER_PREFIX, NUMBER_SUFFIX, i)) != current
      invariant 2 <= i && Tried(name, NUMBER_PREFIX, NUMBER_SUFFIX, i) <= free
      invariant FirstFree(free, name, NUMBER_PREFIX, NUMBER_SUFFIX, i) == FirstFree(free, name, NUMBER_PREFIX, NUMBER_SUFFIX, 2)
      decreases free - Tried(name, NUMBER_PREFIX, NUMBER_SUFFIX, i)
    {
      TriedStep(name, NUMBER_PREFIX, NUMBER_SUFFIX, i);
      i := i + 1;
    }
    r := Numbered(name, NUMBER_PREFIX, NUMBER_SUFFIX, i);
  }

  /** `create`: make the directory under its own name when that is free,
      otherwise under the first available name, which is returned. */
  method Create(disk: Disk, name: string) returns (r: Option<string>)
    modifies disk
    ensures name !in old(disk.dirs) ==> r == None && disk.dirs == old(disk.dirs)[name := {}]
    ensures name in old(disk.dirs) ==> && r == Some(AvailableName(old(disk.dirs).Keys, name, None))
                                       && r.value !in old(disk.dirs)
                                       && disk.dirs == old(disk.dirs)[r.value := {}]
    ensures disk.outside == old(disk.outside)
  {
    if name !in disk.dirs {
      disk.dirs := disk.dirs[name := {}];
      r := None;
    } else {
      AvailableNameLeast(disk.dirs.Keys, name, None);
      var available := FindAvailableName(disk, name, None);
      disk.dirs := disk.dirs[available := {}];
      r := Some(available);
    }
  }

  // ---------------------------------------------------------------------
  // Renaming the files of a directory

  /** The new name of a file when its directory is renamed to `newName`:
      `"<newName>.<ext>"`, or just `newName` for a file without extension. */
  function RenamedFile(file: string, newName: string): string {
    var ext := Extension(file);
    if ext.Some? then AppendExt(newName, ext.value) else newName
  }

  /** The files after renaming those of `order`, one after the other, each
      rename replacing a file that already has the new name. */
  function RenameSeq(files: set<string>, order: seq<string>, newName: string): set<string>
    decreases |order|
  {
    if order == [] then files
    else
      var f := order[|order| - 1];
      RenameSeq(files, order[..|order| - 1], newName) - {f} + {RenamedFile(f, newName)}
  }

  /** `order` lists every file of `files` once: the order of `read_dir`. */
  ghost predicate Enumerates(order: seq<string>, files: set<string>) {
    && (forall i :: 0 <= i < |order| ==> order[i] in files)
    && (forall f :: f in files ==> f in order)
    && (forall i, j :: 0 <= i < j < |order| ==> order[i] != order[j])
  }

  /** The files listed in `order`. */
  function Elems(order: seq<string>): set<string> {
    set f | f in order
  }

  /** The new names of `files`. */
  function Image(files: set<string>, newName: string): set<string> {
    set f | f in files :: RenamedFile(f, newName)
  }

  /** The directory `name` of `dirs` has become `newName` in `dirs'`, its files
      renamed in some order. */
  ghost predicate Renamed(dirs: map<string, set<string>>, name: string, newName: string, dirs': map<string, set<string>>) {
    && name in dirs
    && exists order :: && Enumerates(order, dirs[name])
                       && dirs' == (dirs - {name})[newName := RenameSeq(dirs[name], order, newName)]
  }

  /** The extension of a file name has no dot. */
  lemma ExtensionHasNoDot(file: string)
    requires Extension(file).Some?
    ensures '.' !in Extension(file).value
  {
  }

  /** When the new name has no extension of its own, a renamed file keeps its
      name under a second rename. */
  lemma RenamedFileFixed(file: string, newName: string)
    requires GoodStem(newName) && Extension(newName).None?
    ensures RenamedFile(RenamedFile(file, newName), newName) == RenamedFile(file, newName)
  {
    var ext := Extension(file);
    if ext.Some? {
      ExtensionHasNoDot(file);
      AppendExtParts(newName, ext.value);
    }
  }

  /** Renaming one more file adds its new name to the image. */
  lemma ImageAdd(files: set<string>, f: string, newName: string)
    ensures Image(files + {f}, newName) == Image(files, newName) + {RenamedFile(f, newName)}
  {
  }

  /** One rename step: `f` leaves the files still to do and its new name
      joins the image of those done. */
  lemma RenameStep(files: set<string>, before: set<string>, f: string, newName: string)
    requires GoodStem(newName) && Extension(newName).None?
    ensures var state := (files - before) + Image(before, newName);
      state - {f} + {RenamedFile(f, newName)} == (files - (before + {f})) + Image(before + {f}, newName)
  {
    ImageAdd(before, f, newName);
    if f in Image(before, newName) {
      var g :| g in before && f == RenamedFile(g, newName);
      RenamedFileFixed(g, newName);
    }
  }

  /** After renaming the files of `order`, these files are gone and their new
      names are present, whatever the order. */
  lemma {:induction false} RenameSeqState(files: set<string>, order: seq<string>, newName: string)
    requires GoodStem(newName) && Extension(newName).None?
    ensures RenameSeq(files, order, newName) == (files - Elems(order)) + Image(Elems(order), newName)
    decreases |order|
  {
    if order != [] {
      var p, f := order[..|order| - 1], order[|order| - 1];
      RenameSeqState(files, p, newName);
      assert Elems(order) == Elems(p) + {f} by {
        assert order == p + [f];
      }
      RenameStep(files, Elems(p), f, newName);
    }
  }

  /** When the new name has no extension of its own, the renamed directory
      holds exactly the new names of its files, whatever the order of the
      listing. */
  lemma RenamedImage(dirs: map<string, set<string>>, name: string, newName: string, dirs': map<string, set<string>>)
    requires Renamed(dirs, name, newName, dirs')
    requires GoodStem(newName) && Extension(newName).None?
    ensures dirs'.Keys == dirs.Keys - {name} + {newName}
    ensures dirs'[newName] == Image(dirs[name], newName)
    ensures forall d :: d in dirs && d != name && d != newName ==> d in dirs' && dirs'[d] == dirs[d]
  {
    var order :| && Enumerates(order, dirs[name])
                 && dirs' == (dirs - {name})[newName := RenameSeq(dirs[name], order, newName)];
    RenameSeqState(dirs[name], order, newName);
    assert Elems(order) == dirs[name];
  }

  /** Every renamed file carries the new name as its stem. */
  lemma RenamedFileStem(file: string, newName: string)
    requires GoodStem(newName) && Extension(newName).None?
    ensures Stem(RenamedFile(file, newName)) == newName
  {
    var ext := Extension(file);
    if ext.Some? {
      ExtensionHasNoDot(file);
      AppendExtParts(newName, ext.value);
    }
  }

  // ---------------------------------------------------------------------
  // The directory of one recipe

  class Directory {
    /** The path of the parent directory, component by component. */
    const parent: seq<string>
    var name: string

    constructor(parent: seq<string>, name: string)
      ensures this.parent == parent && this.name == name
    {
      this.parent := parent;
      this.name := name;
    }

    /** `Directory::from_title`: the directory named after the title. */
    static method FromTitle(parent: seq<string>, title: string, sanitize: string -> string) returns (r: Result<Directory, Error>)
      ensures TitleToName(title, sanitize).Err? ==> r == Err(TitleToName(title, sanitize).error)
      ensures TitleToName(title, sanitize).Ok? ==>
        r.Ok? && fresh(r.value) && r.value.parent == parent && r.value.name == TitleToName(title, sanitize).value
    {
      var name := TitleToName(title, sanitize);
      if name.Err? {
        r := Err(name.error);
      } else {
        var directory := new Directory(parent, name.value);
        r := Ok(directory);
      }
    }

    /** `path`: the parent joined with the name. */
    function Path(): (p: seq<string>)
      reads this
      ensures |p| == |parent| + 1 && p[..|parent|] == parent && p[|parent|] == name
    {
      parent + [name]
    }

    /** `file_path`: the file `<name>.<ext>` inside the directory. */
    function FilePath(ext: string): (p: seq<string>)
      reads this
      ensures |p| == |parent| + 2 && p[..|parent| + 1] == Path() && p[|parent| + 1] == AppendExt(name, ext)
    {
      Path() + [AppendExt(name, ext)]
    }

    /** `recipe_path`: the file `<name>.recipe` inside the directory. */
    function RecipePath(): seq<string>
      reads this
    {
      FilePath(RECIPE_FILE_EXT)
    }

    /** The recipe file's name splits back into the directory name and the
        recipe extension. */
    lemma RecipePathParts()
      requires GoodStem(name)
      ensures var file := RecipePath()[|parent| + 1];
        Stem(file) == name && Extension(file) == Some(RECIPE_FILE_EXT)
    {
      assert '.' !in RECIPE_FILE_EXT;
      FilePathParts(RECIPE_FILE_EXT);
    }

    /** A file path lies directly inside the directory, whose own path ends
        in its name, and the file's name splits back into that name and the
        extension given. */
    lemma FilePathParts(ext: string)
      requires GoodStem(name) && '.' !in ext
      ensures var (dir, file) := (Path(), FilePath(ext));
        && |file| == |dir| + 1 && file[..|dir|] == dir
        && dir[..|dir| - 1] == parent && dir[|dir| - 1] == name
        && Stem(file[|dir|]) == name && Extension(file[|dir|]) == Some(ext)
    {
      AppendExtParts(name, ext);
    }

    /** `is_image_path`: a file whose stem is the directory name and whose
        extension is an allowed image extension. */
    predicate IsImagePath(file: string, exts: seq<string>)
      reads this
    {
      Stem(file) == name && Extension(file).Some? && Extension(file).value in exts
    }

    /** `store`: create the directory (under the first available name when
        its own is taken) and put the recipe file into it; the directory is
        new, so the recipe file overwrites nothing. */
    method Store(disk: Disk)
      modifies this, disk
      ensures old(name) !in old(disk.dirs) ==> name == old(name)
      ensures old(name) in old(disk.dirs) ==> name == AvailableName(old(disk.dirs).Keys, old(name), None)
      ensures name !in old(disk.dirs)
      ensures disk.dirs == old(disk.dirs)[name := {AppendExt(name, RECIPE_FILE_EXT)}]
      ensures disk.outside == old(disk.outside)
    {
      var created := Create(disk, name);
      if created.Some? {
        name := created.value;
      }
      assert disk.dirs == old(disk.dirs)[name := {}];
      var recipeFile := AppendExt(name, RECIPE_FILE_EXT);
      assert disk.dirs[name] + {recipeFile} == {recipeFile};
      disk.dirs := disk.dirs[name := disk.dirs[name] + {recipeFile}];
      assert disk.dirs == old(disk.dirs)[name := {recipeFile}];
    }

    /** `rename`: move the directory to `newName`, then give each of its
        files the new name, keeping the file's extension. The caller makes
        sure `newName` is free or is the current name. */
    method Rename(disk: Disk, newName: string) returns (r: Result<(), Error>)
      requires newName == name || newName !in disk.dirs
      modifies this, disk
      ensures old(name) !in old(disk.dirs) ==> r == Err(Io(NotFound)) && name == old(name) && disk.dirs == old(disk.dirs)
      ensures old(name) in old(disk.dirs) ==> r == Ok(()) && name == newName && Renamed(old(disk.dirs), old(name), newName, disk.dirs)
      ensures disk.outside == old(disk.outside)
    {
      if name !in disk.dirs {
        return Err(Io(NotFound));
      }
      var files := disk.dirs[name];
      var rest := disk.dirs - {name};
      name := newName;
      var current, remaining := files, files;
      ghost var order: seq<string> := [];
      while remaining != {}
        invariant current == RenameSeq(files, order, newName)
        invariant remaining <= files
        invariant forall i :: 0 <= i < |order| ==> order[i] in files && order[i] !in remaining
        invariant forall f :: f in files ==> f in remaining || f in order
        invariant forall i, j :: 0 <= i < j < |order| ==> order[i] != order[j]
        decreases |remaining|
      {
        var f :| f in remaining;
        current := current - {f} + {RenamedFile(f, newName)};
        remaining := remaining - {f};
        assert (order + [f])[..|order|] == order;
        order := order + [f];
      }
      disk.dirs := rest[newName := current];
      assert Enumerates(order, files);
      r := Ok(());
    }

    /** `update_from_title`: nothing to do when the title gives the current
        name; otherwise rename to that name, or, when it is taken, to the
        first available name, where the current name counts as free. */
    method UpdateFromTitle(disk: Disk, title: string, sanitize: string -> string) returns (r: Result<(), Error>)
      modifies this, disk
      ensures TitleToName(title, sanitize).Err? ==>
        r == Err(TitleToName(title, sanitize).error) && name == old(name) && disk.dirs == old(disk.dirs)
      ensures TitleToName(title, sanitize) == Ok(old(name)) ==>
        r == Ok(()) && name == old(name) && disk.dirs == old(disk.dirs)
      ensures TitleToName(title, sanitize).Ok? && TitleToName(title, sanitize).value != old(name) ==>
        var target := Target(old(disk.dirs).Keys, old(name), TitleToName(title, sanitize).value);
        && (old(name) !in old(disk.dirs) ==> r == Err(Io(NotFound)) && name == old(name) && disk.dirs == old(disk.dirs))
        && (old(name) in old(disk.dirs) ==> r == Ok(()) && name == target && Renamed(old(disk.dirs), old(name), target, disk.dirs))
      ensures disk.outside == old(disk.outside)
    {
      var newName := TitleToName(title, sanitize);
      if newName.Err? {
        return Err(newName.error);
      }
      var n := newName.value;
      if n == name {
        return Ok(());
      }
      if n in disk.dirs {
        TargetFree(disk.dirs.Keys, name, n);
        n := FindAvailableName(disk, n, Some(name));
      }
      r := Rename(disk, n);
    }

    /** `suffix`: what follows the name the title gives, when the directory
        name starts with it and something follows. The title must not be
        blank (see `BlankTitleRejected`). */
    function Suffix(title: string, sanitize: string -> string): (r: Option<string>)
      requires SanitizeTitle(title).Ok?
      reads this
    {
      var base := TitleToName(title, sanitize).value;
      if StartsWith(name, base) && |name| > |base| then Some(name[|base|..]) else None
    }

    /** The suffix is some non-empty `s` exactly when the name is the
        title's name followed by `s`. */
    lemma SuffixIff(title: string, sanitize: string -> string, s: string)
      requires SanitizeTitle(title).Ok?
      ensures Suffix(title, sanitize) == Some(s) <==> s != [] && name == TitleToName(title, sanitize).value + s
    {
      var base := TitleToName(title, sanitize).value;
      if name == base + s {
        assert name[..|base|] == base && name[|base|..] == s;
      }
    }

    /** A directory that was disambiguated with number `i` has the suffix
        `" (i)"`. */
    lemma NumberedSuffix(title: string, sanitize: string -> string, i: nat)
      requires SanitizeTitle(title).Ok?
      requires name == Numbered(TitleToName(title, sanitize).value, NUMBER_PREFIX, NUMBER_SUFFIX, i)
      ensures Suffix(title, sanitize) == Some(NUMBER_PREFIX + NatToString(i) + NUMBER_SUFFIX)
    {
      var base := TitleToName(title, sanitize).value;
      assert name == base + (NUMBER_PREFIX + NatToString(i) + NUMBER_SUFFIX);
      SuffixIff(title, sanitize, NUMBER_PREFIX + NatToString(i) + NUMBER_SUFFIX);
    }

    /** `copy_image_from`: copy the file `source` into the directory as
        `<name>.<ext>`, provided it has an allowed extension. */
    method CopyImageFrom(disk: Disk, source: string, exts: seq<string>) returns (r: Result<(), Error>)
      modifies disk
      ensures Extension(source).None? ==> r == Err(MissingImageFileExt(source))
      ensures Extension(source).Some? && Extension(source).value !in exts ==>
        r == Err(InvalidImageFileExt(Extension(source).value))
      ensures Extension(source).Some? && Extension(source).value in exts && (source !in disk.outside || name !in disk.dirs) ==>
        r == Err(Io(NotFound))
      ensures r.Ok? <==> Extension(source).Some? && Extension(source).value in exts && source in disk.outside && name in disk.dirs
      ensures r.Ok? ==> name in old(disk.dirs) && disk.dirs == old(disk.dirs)[name := old(disk.dirs)[name] + {AppendExt(name, Extension(source).value)}]
      ensures r.Err? ==> disk.dirs == old(disk.dirs)
      ensures disk.outside == old(disk.outside)
    {
      var ext := Extension(source);
      if ext.None? {
        return Err(MissingImageFileExt(source));
      }
      if ext.value !in exts {
        return Err(InvalidImageFileExt(ext.value));
      }
      if source !in disk.outside || name !in disk.dirs {
        return Err(Io(NotFound));
      }
      disk.dirs := disk.dirs[name := disk.dirs[name] + {AppendExt(name, ext.value)}];
      r := Ok(());
    }

    /** The file an accepted copy creates is an image of the directory. */
    lemma CopiedIsImage(source: string, exts: seq<string>)
      requires GoodStem(name) && Extension(source).Some? && Extension(source).value in exts
      ensures IsImagePath(AppendExt(name, Extension(source).value), exts)
    {
      ExtensionHasNoDot(source);
      AppendExtParts(name, Extension(source).value);
    }
  }

  /** The name `update_from_title` renames to when the title gives `name`,
      different from the current one. */
  ghost function Target(taken: set<string>, current: string, name: string): string {
    if name in taken then AvailableName(taken, name, Some(current)) else name
  }

  /** The rename target is free or is the current name, which `rename` then
      keeps (the self slot). */
  lemma TargetFree(taken: set<string>, current: string, name: string)
    ensures Target(taken, current, name) !in taken || Target(taken, current, name) == current
  {
    AvailableNameLeast(taken, name, Some(current));
  }
}
