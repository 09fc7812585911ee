/**
 * The file-name logic of the YANG repository handlers of `backend/mux.go`:
 * which zip entries `extractYangFolder` extracts and under which names, and
 * what the `list` handler reports for the local uploads folder and for the
 * NSP intent-type catalogue.
 *
 * The zip archive is its sequence of entry names; reading a directory is a
 * function from a path to its entries or an error.
 */
module YangFiles {
  import opened Wrappers
  import opened GoStrings
  import opened FilePath
  import opened Responses
  import opened Sequences
  import NspIntents

  /** The extension both handlers look for. */
  const YangExt: string := ".yang"

  /** The folder uploads are kept in. */
  const UploadsFolder: string := "../uploads/"

  /** The page size of the catalogue search behind the "nsp" listing. */
  const CataloguePageSize: int := 300

  // ---------------------------------------------------------------------------
  // Go's `filepath.Base` and `filepath.Ext` on a path that names a file
  // ---------------------------------------------------------------------------

  /** A path that does not end in a separator: its last element is a file name. */
  predicate NamesFile(path: string) {
    path != [] && path[|path| - 1] != Separator
  }

  /** The base name of a file path is what follows its last separator. */
  lemma BaseOfFile(path: string)
    requires NamesFile(path)
    ensures Base(path) == path[LastIndex(path, Separator) + 1..]
  {
    var p := StripTrailingSeparators(path);
    assert p == path;
    var i := LastIndex(path, Separator);
    assert i < |path| - 1;
    assert path[i + 1..] != [];
  }

  /** The base name of a file path whose last separator is at `i`. */
  lemma BaseAfter(path: string, i: nat)
    requires NamesFile(path) && i < |path| && path[i] == Separator && Separator !in path[i + 1..]
    ensures Base(path) == path[i + 1..]
  {
    assert path[i] in path;
    BaseOfFile(path);
  }

  /** A folder path: empty, or ending in a separator. */
  predicate FolderPrefix(dir: string) {
    dir == [] || dir[|dir| - 1] == Separator
  }

  /** The base name of a name without separators, put after a folder path, is that name. */
  lemma BaseOfJoined(dir: string, name: string)
    requires FolderPrefix(dir) && name != [] && Separator !in name
    ensures Base(dir + name) == name
  {
    var path := dir + name;
    assert path[|path| - 1] == name[|name| - 1];
    assert path[|dir|..] == name;
    if dir == [] {
      assert path == name;
      BaseOfFile(path);
    } else {
      assert path[|dir| - 1] == Separator;
      BaseAfter(path, |dir| - 1);
    }
  }

  /** A suffix that does not hold the character at `i` lies past `i`. */
  lemma SuffixPast(s: string, i: int, suffix: string)
    requires -1 <= i < |s| && HasSuffix(s, suffix)
    requires i >= 0 ==> s[i] !in suffix
    ensures HasSuffix(s[i + 1..], suffix)
  {
    assert s[i + 1..][|s| - (i + 1) - |suffix|..] == s[|s| - |suffix|..];
  }

  /** A suffix of a file path that holds no separator is a suffix of its base name. */
  lemma SuffixOfBase(path: string, suffix: string)
    requires NamesFile(path) && HasSuffix(path, suffix) && Separator !in suffix
    ensures HasSuffix(Base(path), suffix)
  {
    var i := LastIndex(path, Separator);
    var b := path[i + 1..];
    BaseOfFile(path);
    SuffixPast(path, i, suffix);
    assert Base(path) == b;
    assert HasSuffix(b, suffix);
  }

  /** An extension: a dot followed by characters that are neither dots nor separators. */
  predicate IsExtension(ext: string) {
    |ext| >= 1 && ext[0] == '.' && '.' !in ext[1..] && Separator !in ext
  }

  /** An extension without its last character, if it has one after the dot, is an extension. */
  lemma ExtensionInit(ext: string)
    requires IsExtension(ext) && |ext| > 1
    ensures IsExtension(ext[..|ext| - 1])
    ensures ext[|ext| - 1] != '.' && ext[|ext| - 1] != Separator
  {
    assert ext[1..][|ext| - 2] == ext[|ext| - 1];
    assert ext[..|ext| - 1][1..] == ext[1..][..|ext| - 2];
  }

  /** Dropping the last character of a string and of its suffix keeps the suffix. */
  lemma SuffixInit(s: string, suffix: string)
    requires HasSuffix(s, suffix) && suffix != []
    ensures s[|s| - 1] == suffix[|suffix| - 1]
    ensures HasSuffix(s[..|s| - 1], suffix[..|suffix| - 1])
  {
    assert s[..|s| - 1][|s| - |suffix|..] == suffix[..|suffix| - 1];
  }

  /** `filepath.Ext` gives back any extension the path ends with. */
  lemma {:induction false} ExtOfSuffix(path: string, ext: string)
    requires HasSuffix(path, ext) && IsExtension(ext)
    ensures Ext(path) == ext
    decreases |ext|
  {
    SuffixInit(path, ext);
    if |ext| > 1 {
      var shorter := ext[..|ext| - 1];
      ExtensionInit(ext);
      ExtOfSuffix(path[..|path| - 1], shorter);
      assert ext == shorter + [path[|path| - 1]];
    }
  }

  // ---------------------------------------------------------------------------
  // extractYangFolder
  // ---------------------------------------------------------------------------

  /** The folder an uploaded archive is extracted into: its base name without its extension. */
  function RepoFolder(filename: string): string {
    TrimSuffix(Base(filename), Ext(filename))
  }

  /**
   * For an archive named like a file, the folder name followed by the
   * extension is the base name again, and the folder name holds no separator.
   */
  lemma RepoFolderOfArchive(filename: string)
    requires NamesFile(filename)
    ensures RepoFolder(filename) + Ext(filename) == Base(filename)
    ensures Separator !in RepoFolder(filename)
  {
    SuffixOfBase(filename, Ext(filename));
    BaseOfFile(filename);
    var i := LastIndex(filename, Separator);
    assert Base(filename) != [Separator] by {
      assert Base(filename)[|Base(filename)| - 1] == filename[|filename| - 1];
    }
    var r := RepoFolder(filename);
    assert r == Base(filename)[..|r|];
  }

  /**
   * An archive named `stem + ext` in any folder, where `ext` is its extension,
   * is extracted into the folder `stem`: "models.v2.zip" goes into "models.v2".
   */
  lemma RepoFolderStripsExtension(dir: string, stem: string, ext: string)
    requires FolderPrefix(dir) && Separator !in stem && IsExtension(ext)
    ensures RepoFolder(dir + stem + ext) == stem
  {
    var filename := dir + stem + ext;
    JoinedArchive(dir, stem, ext);
    ExtOfSuffix(filename, ext);
    BaseOfJoined(dir, stem + ext);
    RepoFolderOfArchive(filename);
    AppendCancel(RepoFolder(filename), stem, ext);
  }

  lemma JoinedArchive(dir: string, stem: string, ext: string)
    requires Separator !in stem && IsExtension(ext)
    ensures dir + stem + ext == dir + (stem + ext)
    ensures HasSuffix(dir + stem + ext, ext) && Separator !in stem + ext
  {
    var filename := dir + stem + ext;
    assert filename[|filename| - |ext|..] == ext;
  }

  lemma AppendCancel(a: string, b: string, c: string)
    requires a + c == b + c
    ensures a == b
  {
    assert a == (a + c)[..|a|];
  }

  /** The test extraction applies to a zip entry's name: it ends in ".yang", in lower case. */
  predicate Extracts(name: string) {
    HasSuffix(name, YangExt)
  }

  /** An extracted entry keeps its extension once it is flattened to its base name. */
  lemma ExtractedBase(name: string)
    requires Extracts(name)
    ensures NamesFile(name)
    ensures HasSuffix(Base(name), YangExt) && Separator !in Base(name)
  {
    assert name[|name| - 1] == YangExt[4];
    SuffixOfBase(name, YangExt);
  }

  /** The file extraction writes a zip entry to, if it extracts the entry at all. */
  function TargetOf(name: string): Option<string> {
    if Extracts(name) then Some(Base(name)) else None
  }

  /**
   * The files extraction writes, in the archive's order: the base name of each
   * entry that ends in ".yang". Entries in different folders with the same base
   * name land on the same file.
   */
  function Targets(entries: seq<string>): seq<string> {
    Collect(entries, TargetOf)
  }

  /**
   * A file is written exactly when some entry ends in ".yang" and has that
   * base name, and every file written is a plain ".yang" name with no folder
   * in front.
   */
  lemma TargetsExactly(entries: seq<string>, t: string)
    ensures t in Targets(entries) <==> exists i :: 0 <= i < |entries| && Extracts(entries[i]) && Base(entries[i]) == t
    ensures t in Targets(entries) ==> HasSuffix(t, YangExt) && Separator !in t
  {
    CollectExactly(entries, TargetOf, t);
    if t in Targets(entries) {
      var i :| 0 <= i < |entries| && TargetOf(entries[i]) == Some(t);
      ExtractedBase(entries[i]);
    }
  }

  /**
   * Two entries with the same ".yang" name in different folders are both
   * written, to the same file: the second overwrites the first.
   */
  lemma FlatteningCollides(dir1: string, dir2: string, name: string)
    requires FolderPrefix(dir1) && FolderPrefix(dir2) && Separator !in name && Extracts(name)
    ensures Targets([dir1 + name, dir2 + name]) == [name, name]
  {
    var e1, e2 := dir1 + name, dir2 + name;
    assert Extracts(e1) by { assert e1[|e1| - |YangExt|..] == name[|name| - |YangExt|..]; }
    assert Extracts(e2) by { assert e2[|e2| - |YangExt|..] == name[|name| - |YangExt|..]; }
    BaseOfJoined(dir1, name);
    BaseOfJoined(dir2, name);
    CollectPair(e1, e2, TargetOf);
  }

  /**
   * `extractYangFolder` without its file operations: the folder the archive
   * is extracted into, the file written for each entry that ends in ".yang",
   * and the count of those entries.
   */
  method ExtractYangFolder(filename: string, entries: seq<string>)
    returns (folder: string, targets: seq<string>, yangFileCount: int)
    ensures folder == RepoFolder(filename)
    ensures targets == Targets(entries)
    ensures yangFileCount == |targets|
  {
    folder := TrimSuffix(Base(filename), Ext(filename));
    targets := [];
    yangFileCount := 0;
    for k := 0 to |entries|
      invariant targets == Targets(entries[..k])
      invariant yangFileCount == |targets|
    {
      CollectStep(entries, TargetOf, k);
      if HasSuffix(entries[k], YangExt) {
        yangFileCount := yangFileCount + 1;
        targets := targets + [Base(entries[k])];
      }
    }
    assert entries[..|entries|] == entries;
  }

  // ---------------------------------------------------------------------------
  // list
  // ---------------------------------------------------------------------------

  /** The test the local listing applies to a top-level file: its extension is ".yang" in any case. */
  predicate Lists(name: string) {
    ToLower(Ext(name)) == YangExt
  }

  /** A lower-cased string of five characters is ".yang" exactly when each character lowers to its counterpart. */
  lemma LowersToYang(e: string)
    requires |e| == 5
    ensures ToLower(e) == YangExt <==>
      LowerChar(e[0]) == '.' && LowerChar(e[1]) == 'y' && LowerChar(e[2]) == 'a' &&
      LowerChar(e[3]) == 'n' && LowerChar(e[4]) == 'g'
  {
    if LowerChar(e[0]) == '.' && LowerChar(e[1]) == 'y' && LowerChar(e[2]) == 'a' &&
       LowerChar(e[3]) == 'n' && LowerChar(e[4]) == 'g' {
      assert ToLower(e) == YangExt;
    }
  }

  /**
   * The listing shows a top-level file exactly when its extension is ".yang"
   * written in any mix of upper and lower case.
   */
  lemma ListsExactly(name: string)
    ensures Lists(name) <==>
      var e := Ext(name);
      |e| == 5 && e[0] == '.' && (e[1] == 'y' || e[1] == 'Y') && (e[2] == 'a' || e[2] == 'A') &&
      (e[3] == 'n' || e[3] == 'N') && (e[4] == 'g' || e[4] == 'G')
  {
    var e := Ext(name);
    if |e| == 5 {
      LowersToYang(e);
      LowerCharIs(e[1], 'y');
      LowerCharIs(e[2], 'a');
      LowerCharIs(e[3], 'n');
      LowerCharIs(e[4], 'g');
    } else {
      assert |ToLower(e)| != |YangExt|;
    }
  }

  /** Every name extraction keeps, the listing shows. */
  lemma ExtractedIsListed(name: string)
    requires Extracts(name)
    ensures Lists(name)
  {
    assert IsExtension(YangExt) by { assert YangExt[1..] == "yang"; }
    ExtOfSuffix(name, YangExt);
  }

  /** The converse fails: the listing shows "m.YANG", which extraction skips. */
  lemma ListedNotExtracted()
    ensures Lists("m.YANG") && !Extracts("m.YANG")
  {
    assert "m.YANG"[1..][1] != YangExt[1];
    assert IsExtension(".YANG") by { assert ".YANG"[1..] == "YANG"; }
    ExtOfSuffix("m.YANG", ".YANG");
    assert ToLower(".YANG") == YangExt;
  }

  /** An entry of a directory read. */
  datatype DirEntry = DirEntry(name: string, isDir: bool)

  /** Reading a directory: its entries in order, or the error text. */
  type ReadDir = string -> Result<seq<DirEntry>, string>

  /** An element of the listing: a repository folder and its files, or a catalogue key with no files. */
  datatype ListEntry = ListEntry(name: string, files: seq<string>)

  /** The listing, or the error response the handler writes instead. */
  datatype ListReply = Listing(entries: seq<ListEntry>) | Refusal(response: Response)

  /** The name of an entry of a repository folder, if it is not a folder itself. */
  function FileName(entry: DirEntry): Option<string> {
    if entry.isDir then None else Some(entry.name)
  }

  /** The names of the entries of a repository folder that are not folders themselves, in order. */
  function RepoFiles(entries: seq<DirEntry>): seq<string> {
    Collect(entries, FileName)
  }

  /** The name of a top-level entry, if it is a file whose extension is ".yang" in any case. */
  function TopLevelYangName(entry: DirEntry): Option<string> {
    if !entry.isDir && Lists(entry.name) then Some(entry.name) else None
  }

  /** The top-level files of the uploads folder whose extension is ".yang" in any case, in order. */
  function TopLevelYang(entries: seq<DirEntry>): seq<string> {
    Collect(entries, TopLevelYangName)
  }

  /** The path a repository folder is read from. */
  function RepoPath(folderName: string): string {
    UploadsFolder + folderName + "/"
  }

  /**
   * One element per folder of the uploads folder, in order, each with the
   * files it holds; the first folder that cannot be read fails the listing.
   */
  function Repos(readDir: ReadDir, entries: seq<DirEntry>): Result<seq<ListEntry>, string>
    decreases |entries|
  {
    if entries == [] then Success([])
    else
      var last := entries[|entries| - 1];
      var before := Repos(readDir, entries[..|entries| - 1]);
      if before.Failure? || !last.isDir then before
      else
        var files := readDir(RepoPath(last.name));
        if files.Failure? then Failure(files.error)
        else Success(before.value + [ListEntry(last.name, RepoFiles(files.value))])
  }

  /** What the `list` handler answers for the uploads folder. */
  function LocalListing(readDir: ReadDir): ListReply {
    match readDir(UploadsFolder)
    case Failure(err) => Refusal(RaiseError("failed to read local uploads directory", Some(err)))
    case Success(entries) =>
      match Repos(readDir, entries)
      case Failure(err) => Refusal(RaiseError("reading local yang repos failed", Some(err)))
      case Success(repos) => Listing(repos + [ListEntry("", TopLevelYang(entries))])
  }

  /** The listing element of one catalogue key: the key as its name, and no files. */
  function KeyEntry(key: string): ListEntry {
    ListEntry(key, [])
  }

  /** One element per catalogue key, in order, with no files. */
  function KeyEntries(keys: seq<string>): seq<ListEntry> {
    Map(keys, KeyEntry)
  }

  /** The catalogue listing names each key once, at the key's own position, with no files. */
  lemma KeyEntriesInOrder(keys: seq<string>)
    ensures |KeyEntries(keys)| == |keys|
    ensures forall k :: 0 <= k < |keys| ==> KeyEntries(keys)[k].name == keys[k] && KeyEntries(keys)[k].files == []
  {
    MapAt(keys, KeyEntry);
  }

  /** What the `list` handler answers for the NSP catalogue. */
  function CatalogueListing(server: NspIntents.SearchServer, fuel: nat): ListReply
    requires NspIntents.StopsWithin(server, 0, CataloguePageSize, fuel)
  {
    match NspIntents.Search(server, 0, CataloguePageSize, fuel)
    case Failure(err) => Refusal(RaiseError("fetching NSP intent types failed", Some(NspIntents.Message(err))))
    case Success(keys) => Listing(KeyEntries(keys))
  }

  /** What the `list` handler answers for `kind`. */
  function ListOf(kind: string, readDir: ReadDir, server: NspIntents.SearchServer, fuel: nat): ListReply
    requires kind == "nsp" ==> NspIntents.StopsWithin(server, 0, CataloguePageSize, fuel)
  {
    if kind == "local" then LocalListing(readDir)
    else if kind == "nsp" then CatalogueListing(server, fuel)
    else Refusal(RaiseError("unsupported kind", None))
  }

  /** A repository folder lists exactly the entries that are not folders. */
  lemma RepoFilesExactly(entries: seq<DirEntry>, name: string)
    ensures name in RepoFiles(entries) <==> exists i :: 0 <= i < |entries| && !entries[i].isDir && entries[i].name == name
  {
    CollectExactly(entries, FileName, name);
  }

  /** The top level lists exactly the files whose extension is ".yang" in any case. */
  lemma TopLevelYangExactly(entries: seq<DirEntry>, name: string)
    ensures name in TopLevelYang(entries) <==>
      Lists(name) && exists i :: 0 <= i < |entries| && !entries[i].isDir && entries[i].name == name
  {
    CollectExactly(entries, TopLevelYangName, name);
  }

  /** A folder whose read fails. */
  predicate Unreadable(readDir: ReadDir, entry: DirEntry) {
    entry.isDir && readDir(RepoPath(entry.name)).Failure?
  }

  /** An entry, if it is a folder. */
  function FolderOf(entry: DirEntry): Option<DirEntry> {
    if entry.isDir then Some(entry) else None
  }

  /** The folders among the entries of a directory, in order. */
  function Folders(entries: seq<DirEntry>): seq<DirEntry> {
    Collect(entries, FolderOf)
  }

  /**
   * The local listing fails exactly when one of the folders cannot be read;
   * otherwise it has one element per folder, in order, naming the folder and
   * carrying the files read from it.
   */
  lemma {:induction false} ReposExactly(readDir: ReadDir, entries: seq<DirEntry>)
    ensures Repos(readDir, entries).Failure? <==> exists i :: 0 <= i < |entries| && Unreadable(readDir, entries[i])
    ensures Repos(readDir, entries).Success? ==>
      var repos := Repos(readDir, entries).value;
      var folders := Folders(entries);
      |repos| == |folders| &&
      forall k :: 0 <= k < |repos| ==>
        readDir(RepoPath(folders[k].name)).Success? &&
        repos[k] == ListEntry(folders[k].name, RepoFiles(readDir(RepoPath(folders[k].name)).value))
    decreases |entries|
  {
    if entries != [] {
      var init := entries[..|entries| - 1];
      var last := entries[|entries| - 1];
      ReposExactly(readDir, init);
      if exists i :: 0 <= i < |entries| && Unreadable(readDir, entries[i]) {
        var i :| 0 <= i < |entries| && Unreadable(readDir, entries[i]);
        if i < |init| {
          assert Unreadable(readDir, init[i]);
        }
      }
      if exists i :: 0 <= i < |init| && Unreadable(readDir, init[i]) {
        var i :| 0 <= i < |init| && Unreadable(readDir, init[i]);
        assert Unreadable(readDir, entries[i]);
      }
    }
  }

  /**
   * `list`: for "local", one element per repository folder with its files,
   * then an element with no name holding the top-level ".yang" files; for
   * "nsp", one element per catalogue key from the search starting at page 0
   * with pages of 300; any other kind is refused.
   */
  method List(kind: string, readDir: ReadDir, server: NspIntents.SearchServer, ghost fuel: nat) returns (reply: ListReply)
    requires kind == "nsp" ==> NspIntents.StopsWithin(server, 0, CataloguePageSize, fuel)
    ensures reply == ListOf(kind, readDir, server, fuel)
  {
    if kind == "local" {
      reply := ListLocal(readDir);
    } else if kind == "nsp" {
      reply := ListCatalogue(server, fuel);
    } else {
      reply := Refusal(RaiseError("unsupported kind", None));
    }
  }

  /** The "local" branch of `list`. */
  method ListLocal(readDir: ReadDir) returns (reply: ListReply)
    ensures reply == LocalListing(readDir)
  {
    var f: seq<ListEntry> := [];
    var top := readDir(UploadsFolder);
    if top.Failure? {
      return Refusal(RaiseError("failed to read local uploads directory", Some(top.error)));
    }
    var dirEntries := top.value;
    for i := 0 to |dirEntries|
      invariant Repos(readDir, dirEntries[..i]) == Success(f)
    {
      assert dirEntries[..i + 1][..i] == dirEntries[..i];
      if dirEntries[i].isDir {
        var folderName := dirEntries[i].name;
        var repo := readDir(UploadsFolder + folderName + "/");
        if repo.Failure? {
          ReposFailureSticks(readDir, dirEntries, i + 1);
          assert dirEntries[..|dirEntries|] == dirEntries;
          return Refusal(RaiseError("reading local yang repos failed", Some(repo.error)));
        }
        var files := CollectRepoFiles(repo.value);
        f := f + [ListEntry(folderName, files)];
      }
    }
    assert dirEntries[..|dirEntries|] == dirEntries;
    var topFiles := CollectTopLevelYang(dirEntries);
    f := f + [ListEntry("", topFiles)];
    return Listing(f);
  }

  /** The loop of the "local" branch over a repository folder's entries. */
  method CollectRepoFiles(repoEntries: seq<DirEntry>) returns (files: seq<string>)
    ensures files == RepoFiles(repoEntries)
  {
    files := [];
    for j := 0 to |repoEntries|
      invariant files == RepoFiles(repoEntries[..j])
    {
      CollectStep(repoEntries, FileName, j);
      if !repoEntries[j].isDir {
        files := files + [repoEntries[j].name];
      }
    }
    assert repoEntries[..|repoEntries|] == repoEntries;
  }

  /** The loop of the "local" branch over the top-level entries. */
  method CollectTopLevelYang(dirEntries: seq<DirEntry>) returns (files: seq<string>)
    ensures files == TopLevelYang(dirEntries)
  {
    files := [];
    for i := 0 to |dirEntries|
      invariant files == TopLevelYang(dirEntries[..i])
    {
      CollectStep(dirEntries, TopLevelYangName, i);
      if !dirEntries[i].isDir {
        var yangFile := dirEntries[i].name;
        if ToLower(Ext(yangFile)) == YangExt {
          files := files + [yangFile];
        }
      }
    }
    assert dirEntries[..|dirEntries|] == dirEntries;
  }

  /** The "nsp" branch of `list`. */
  method ListCatalogue(server: NspIntents.SearchServer, ghost fuel: nat) returns (reply: ListReply)
    requires NspIntents.StopsWithin(server, 0, CataloguePageSize, fuel)
    ensures reply == CatalogueListing(server, fuel)
  {
    var found := NspIntents.IntentTypeSearch(server, 0, CataloguePageSize, fuel);
    if found.Failure? {
      return Refusal(RaiseError("fetching NSP intent types failed", Some(NspIntents.Message(found.error))));
    }
    var f := CollectKeyEntries(found.value);
    return Listing(f);
  }

  /** The loop of the "nsp" branch over the catalogue keys. */
  method CollectKeyEntries(keys: seq<string>) returns (f: seq<ListEntry>)
    ensures f == KeyEntries(keys)
  {
    f := [];
    for i := 0 to |keys|
      invariant f == KeyEntries(keys[..i])
    {
      MapStep(keys, KeyEntry, i);
      f := f + [ListEntry(keys[i], [])];
    }
    assert keys[..|keys|] == keys;
  }

  /** Once a prefix of the entries fails the local listing, every longer prefix does too, with the same error. */
  lemma {:induction false} ReposFailureSticks(readDir: ReadDir, entries: seq<DirEntry>, n: nat)
    requires n <= |entries| && Repos(readDir, entries[..n]).Failure?
    ensures Repos(readDir, entries) == Repos(readDir, entries[..n])
    decreases |entries| - n
  {
    if n < |entries| {
      assert entries[..n + 1][..n] == entries[..n];
      ReposFailureSticks(readDir, entries, n + 1);
    } else {
      assert entries[..n] == entries;
    }
  }
}
