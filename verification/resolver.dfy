/**
 * The resolver: decides, file by file, whether the base game's copy or the
 * mod's copy of a localisation file is parsed, and files the result under
 * `gameFiles` or `modFiles`.
 *
 * A directory is the map from file name (without the `.csv` extension) to
 * the rows of that file; a missing directory is the empty map. The mod
 * counterpart of a base file is the file of the same name in the mod's
 * localisation directory.
 */
module Resolver {
  import opened LocalizationTypes
  import opened CsvRows
  import opened FileLoader

  type Directory = map<string, seq<Row>>

  /** The path of the file `name` in a localisation directory, as far as the loader looks at it. */
  function CsvPath(name: string): (path: string)
    ensures EndsWith(path, CsvSuffix)
  {
    assert (name + CsvSuffix)[|name|..] == CsvSuffix;
    name + CsvSuffix
  }

  /**
   * The resolved localisation: a name with a mod copy is filed under
   * `modFiles` with the mod copy's parse; a name with only a base copy is
   * filed under `gameFiles` with the base copy's parse.
   */
  function Resolution(base: Directory, mod: Directory): (loc: Localization)
  {
    Localization(
      map n | n in base && n !in mod :: Loaded(base[n]),
      map n | n in mod :: Loaded(mod[n]))
  }

  /**
   * Every name of either directory is filed exactly once: under `modFiles`
   * with the mod copy's parse when the mod has the name, else under
   * `gameFiles` with the base copy's parse.
   */
  lemma ResolutionPartition(base: Directory, mod: Directory)
    ensures Resolution(base, mod).gameFiles.Keys !! Resolution(base, mod).modFiles.Keys
    ensures Resolution(base, mod).gameFiles.Keys + Resolution(base, mod).modFiles.Keys == base.Keys + mod.Keys
    ensures Resolution(base, mod).modFiles.Keys == mod.Keys
    ensures forall n :: n in mod ==> Resolution(base, mod).modFiles[n] == Loaded(mod[n])
    ensures forall n :: n in base && n !in mod ==> Resolution(base, mod).gameFiles[n] == Loaded(base[n])
  {
  }

  /** `files` holds, for exactly the names in `names`, the parse of that file of `dir`. */
  ghost predicate ParsedFrom(dir: Directory, names: set<string>, files: map<string, LocalizationData>) {
    && names <= dir.Keys
    && files.Keys == names
    && forall n :: n in files ==> files[n] == Loaded(dir[n])
  }

  lemma ParsedFromInsert(dir: Directory, names: set<string>, files: map<string, LocalizationData>, name: string)
    requires ParsedFrom(dir, names, files) && name in dir
    ensures ParsedFrom(dir, names + {name}, files[name := Loaded(dir[name])])
  {
  }

  /**
   * What the first pass has produced once the base names in `done` are
   * handled: overridden names hold the mod copy's parse under `modFiles`,
   * the others the base copy's parse under `gameFiles`.
   */
  ghost predicate FirstPassDone(base: Directory, mod: Directory, done: set<string>,
                                gameFiles: map<string, LocalizationData>, modFiles: map<string, LocalizationData>)
  {
    ParsedFrom(base, done - mod.Keys, gameFiles) && ParsedFrom(mod, done * mod.Keys, modFiles)
  }

  /**
   * One step of the first pass, for the base file `name`: when the mod has
   * a file of that name, the mod copy is parsed and filed under `modFiles`;
   * otherwise the base copy is parsed and filed under `gameFiles`.
   */
  method LoadBaseFile(base: Directory, mod: Directory, name: string, ghost done: set<string>,
                      gameFiles: map<string, LocalizationData>, modFiles: map<string, LocalizationData>)
    returns (gameFiles': map<string, LocalizationData>, modFiles': map<string, LocalizationData>, ghost readBase: bool)
    requires name in base && done <= base.Keys
    requires FirstPassDone(base, mod, done, gameFiles, modFiles)
    ensures FirstPassDone(base, mod, done + {name}, gameFiles', modFiles')
    ensures readBase <==> name !in mod
  {
    gameFiles', modFiles' := gameFiles, modFiles;
    readBase := false;
    if name in mod {
      var data := LoadFile(CsvPath(name), mod[name]);
      modFiles' := modFiles[name := data.value];
      ParsedFromInsert(mod, done * mod.Keys, modFiles, name);
      assert (done + {name}) - mod.Keys == done - mod.Keys;
    } else {
      var data := LoadFile(CsvPath(name), base[name]);
      readBase := true;
      gameFiles' := gameFiles[name := data.value];
      ParsedFromInsert(base, done - mod.Keys, gameFiles, name);
      assert (done + {name}) * mod.Keys == done * mod.Keys;
    }
  }

  /**
   * The first pass over the base directory: each base file is parsed from
   * its mod counterpart when the mod has one (filed under `modFiles`), and
   * from the base copy otherwise (filed under `gameFiles`). The ghost
   * result `parsedBase` collects the base files that were read.
   */
  method LoadBaseFiles(base: Directory, mod: Directory)
    returns (gameFiles: map<string, LocalizationData>, modFiles: map<string, LocalizationData>)
    ensures FirstPassDone(base, mod, base.Keys, gameFiles, modFiles)
  {
    gameFiles, modFiles := map[], map[];
    var pending := base.Keys;
    while pending != {}
      invariant pending <= base.Keys
      invariant FirstPassDone(base, mod, base.Keys - pending, gameFiles, modFiles)
      decreases pending
    {
      var name :| name in pending;
      ghost var readBase;
      gameFiles, modFiles, readBase := LoadBaseFile(base, mod, name, base.Keys - pending, gameFiles, modFiles);
      assert base.Keys - (pending - {name}) == (base.Keys - pending) + {name};
      pending := pending - {name};
    }
    assert base.Keys - pending == base.Keys;
  }

  /**
   * The second pass over the mod directory: every mod file whose name is
   * not among the base names is parsed and added to `modFiles`.
   */
  method LoadModOnlyFiles(base: Directory, mod: Directory, visited: map<string, LocalizationData>)
    returns (modFiles: map<string, LocalizationData>)
    requires ParsedFrom(mod, base.Keys * mod.Keys, visited)
    ensures modFiles == Resolution(base, mod).modFiles
  {
    modFiles := visited;
    var pending := mod.Keys - base.Keys;
    while pending != {}
      invariant pending <= mod.Keys - base.Keys
      invariant ParsedFrom(mod, mod.Keys - pending, modFiles)
      decreases pending
    {
      var name :| name in pending;
      var data := LoadFile(CsvPath(name), mod[name]);
      modFiles := modFiles[name := data.value];
      pending := pending - {name};
    }
    assert modFiles == Resolution(base, mod).modFiles;
  }

  /** Resolves a base localisation directory against a mod's localisation directory. */
  method Resolve(base: Directory, mod: Directory) returns (loc: Localization)
    ensures loc == Resolution(base, mod)
  {
    var gameFiles, modFiles;
    gameFiles, modFiles := LoadBaseFiles(base, mod);
    modFiles := LoadModOnlyFiles(base, mod, modFiles);
    assert gameFiles == Resolution(base, mod).gameFiles;
    loc := Localization(gameFiles, modFiles);
  }

  /** The base copy of an overridden file is never looked at: replacing its rows changes nothing. */
  lemma OverriddenBaseIsIgnored(base: Directory, mod: Directory, name: string, rows: seq<Row>)
    requires name in base && name in mod
    ensures Resolution(base[name := rows], mod) == Resolution(base, mod)
  {
    var base' := base[name := rows];
    assert Resolution(base', mod).gameFiles == Resolution(base, mod).gameFiles;
  }

  /** A missing base directory leaves only mod files; a missing mod directory only game files. */
  lemma MissingDirectory(base: Directory, mod: Directory)
    ensures Resolution(map[], mod).gameFiles == map[] && Resolution(map[], mod).modFiles.Keys == mod.Keys
    ensures Resolution(base, map[]).modFiles == map[] && Resolution(base, map[]).gameFiles.Keys == base.Keys
  {
  }
}
