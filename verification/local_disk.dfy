/**
 * The local image store: the directory `static/images` and its folders, as the
 * gateway sees them through os.makedirs, os.listdir, os.path.exists, open(...,
 * 'wb') and os.remove. A folder is its listing (in os.listdir order, which the
 * model keeps as a sequence) and the bytes of each file.
 */
module LocalDisk {

  newtype byte = b: int | 0 <= b < 256

  type Bytes = seq<byte>

  datatype Folder = Folder(names: seq<string>, contents: map<string, Bytes>)

  const EmptyFolder: Folder := Folder([], map[])

  /** The folder name of `static/images` itself (os.path.join(static, 'images', '')). */
  const Root: string := ""

  type Dirs = map<string, Folder>

  ghost predicate Distinct(s: seq<string>)
  {
    forall i, j :: 0 <= i < j < |s| ==> s[i] != s[j]
  }

  /** A listing names every stored file once, and only stored files. */
  ghost predicate WellFormed(d: Folder)
  {
    Distinct(d.names) && forall n :: n in d.contents <==> n in d.names
  }

  ghost predicate WellFormedDirs(dirs: Dirs)
  {
    forall f :: f in dirs ==> WellFormed(dirs[f])
  }

  /** os.makedirs(images/folder, exist_ok=True): creates the folder and its parent, keeps what exists. */
  function MakeDirs(dirs: Dirs, folder: string): (r: Dirs)
    ensures r.Keys == dirs.Keys + {folder, Root}
    ensures forall f :: f in dirs ==> r[f] == dirs[f]
    ensures forall f :: f in r && f !in dirs ==> r[f] == EmptyFolder
    ensures WellFormedDirs(dirs) ==> WellFormedDirs(r)
  {
    var withRoot := if Root in dirs then dirs else dirs[Root := EmptyFolder];
    if folder in withRoot then withRoot else withRoot[folder := EmptyFolder]
  }

  /** open(name, 'wb').write(data): a new name joins the end of the listing, an old one is overwritten. */
  function Written(d: Folder, name: string, data: Bytes): (r: Folder)
    ensures name in r.names && name in r.contents && r.contents[name] == data
    ensures forall n :: n != name ==> (n in r.contents <==> n in d.contents)
    ensures forall n :: n != name && n in d.contents ==> r.contents[n] == d.contents[n]
    ensures WellFormed(d) ==> WellFormed(r)
    ensures name in d.names ==> r.names == d.names
    ensures name !in d.names ==> r.names == d.names + [name]
    ensures WellFormed(d) && name !in d.names ==> r.contents - {name} == d.contents
  {
    WrittenNewKeys(d, name, data);
    var names := if name in d.names then d.names else d.names + [name];
    Folder(names, d.contents[name := data])
  }

  /** Writing a fresh name adds exactly that key to a well-formed folder's contents. */
  lemma WrittenNewKeys(d: Folder, name: string, data: Bytes)
    ensures WellFormed(d) && name !in d.names ==> d.contents[name := data] - {name} == d.contents
  {
    if WellFormed(d) && name !in d.names {
      assert name !in d.contents;
    }
  }

  /** Writing a name the folder does not list appends it and adds exactly that one file. */
  lemma WrittenNew(d: Folder, name: string, data: Bytes)
    requires WellFormed(d) && name !in d.names
    ensures Written(d, name, data).names == d.names + [name]
    ensures Written(d, name, data).contents - {name} == d.contents
  {
    assert name !in d.contents;
  }

  /** os.remove of the k-th listed file. */
  function Removed(d: Folder, k: nat): (r: Folder)
    requires k < |d.names|
    ensures r.names == d.names[..k] + d.names[k + 1..]
    ensures d.names[k] !in r.contents
    ensures forall n :: n != d.names[k] ==> (n in r.contents <==> n in d.contents)
    ensures forall n :: n != d.names[k] && n in d.contents ==> r.contents[n] == d.contents[n]
    ensures WellFormed(d) ==> WellFormed(r)
  {
    var r := Folder(d.names[..k] + d.names[k + 1..], d.contents - {d.names[k]});
    assert WellFormed(d) ==> d.names[k] !in r.names;
    r
  }

  /** The file tree under `static/images`, changed in place by the gateway. */
  class FileSystem {
    var dirs: Dirs

    ghost predicate Valid()
      reads this
    {
      WellFormedDirs(dirs)
    }

    constructor (initial: Dirs)
      requires WellFormedDirs(initial)
      ensures Valid() && dirs == initial
    {
      dirs := initial;
    }

    method MakeFolder(folder: string)
      requires Valid()
      modifies this
      ensures Valid() && dirs == MakeDirs(old(dirs), folder)
    {
      dirs := MakeDirs(dirs, folder);
    }

    method WriteFile(folder: string, name: string, data: Bytes)
      requires Valid() && folder in dirs
      modifies this
      ensures Valid() && dirs == old(dirs)[folder := Written(old(dirs)[folder], name, data)]
    {
      dirs := dirs[folder := Written(dirs[folder], name, data)];
    }

    method RemoveFile(folder: string, k: nat)
      requires Valid() && folder in dirs && k < |dirs[folder].names|
      modifies this
      ensures Valid() && dirs == old(dirs)[folder := Removed(old(dirs)[folder], k)]
    {
      dirs := dirs[folder := Removed(dirs[folder], k)];
    }
  }
}
