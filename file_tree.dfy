/**
 * An abstract file system: a finite map from paths (sequences of segments)
 * to directories and regular files, with the handful of java.nio.file and
 * Gradle file operations the plugin performs.
 */
module FileTree {
  import opened Wrappers
  import opened Exceptions

  newtype byte = x: int | 0 <= x < 256

  type Bytes = seq<byte>

  type Path = seq<string>

  /** A directory, or a regular file holding data of type D. */
  datatype Node<D> = Directory | RegularFile(data: D)

  type FileSystem<D> = map<Path, Node<D>>

  /** The files of a running program hold bytes. */
  type Tree = FileSystem<Bytes>

  /** A tree whose every entry sits in an existing directory (the root excepted). */
  ghost predicate WellFormed<D>(t: FileSystem<D>) {
    forall p :: p in t && |p| > 1 ==> p[..|p| - 1] in t && t[p[..|p| - 1]].Directory?
  }

  /** p is dir itself or lies below it. */
  predicate Under(dir: Path, p: Path) {
    |dir| <= |p| && p[..|dir|] == dir
  }

  /** An absolute path rendered with `/` separators, as `Path.toString` does on Unix. */
  function Render(p: Path): string {
    if p == [] then "" else Render(p[..|p| - 1]) + "/" + p[|p| - 1]
  }

  /** `Path.resolve(segment)`: an empty segment resolves to the path itself. */
  function Resolve(p: Path, segment: string): Path {
    if segment == "" then p else p + [segment]
  }

  /** Recursive deletion of dir and everything under it. */
  function DeleteTree<D(==)>(t: FileSystem<D>, dir: Path): (r: FileSystem<D>)
    ensures forall p :: p in r <==> p in t && !Under(dir, p)
    ensures forall p :: p in r ==> r[p] == t[p]
  {
    map p | p in t && !Under(dir, p) :: t[p]
  }

  /** The non-empty prefixes of a path: the directories `createDirectories` must provide. */
  function Ancestry(dir: Path): set<Path> {
    set i | 1 <= i <= |dir| :: dir[..i]
  }

  /** The shortest prefix of dir, from length i on, that names a regular file. */
  function BlockingFile<D>(t: FileSystem<D>, dir: Path, i: nat): (r: Option<Path>)
    requires 1 <= i
    ensures r.Some? ==> r.value in Ancestry(dir) && r.value in t && t[r.value].RegularFile?
    ensures r.None? ==> forall j :: i <= j <= |dir| ==> !(dir[..j] in t && t[dir[..j]].RegularFile?)
    decreases |dir| - i
  {
    if i > |dir| then None
    else if dir[..i] in t && t[dir[..i]].RegularFile? then Some(dir[..i])
    else BlockingFile(t, dir, i + 1)
  }

  /**
   * `Files.createDirectories(dir)`: every missing prefix becomes a directory;
   * a prefix that is a regular file makes it fail without changing anything.
   */
  function CreateDirectories<D(==)>(t: FileSystem<D>, dir: Path): (r: Result<FileSystem<D>, Exception>)
    ensures r.Failure? <==> exists q :: q in Ancestry(dir) && q in t && t[q].RegularFile?
    ensures r.Success? ==> forall q :: q in Ancestry(dir) ==> q in r.value && r.value[q] == Directory
    ensures r.Success? ==> |dir| > 0 ==> dir in r.value && r.value[dir] == Directory
    ensures r.Success? ==> forall p :: p in t ==> p in r.value && r.value[p] == t[p]
    ensures r.Success? ==> forall p :: p in r.value && p !in t ==> p in Ancestry(dir) && r.value[p] == Directory
  {
    match BlockingFile(t, dir, 1)
    case Some(q) => Failure(IOException(Render(q)))
    case None =>
      assert forall q :: q in Ancestry(dir) ==> exists j :: 1 <= j <= |dir| && q == dir[..j];
      assert |dir| > 0 ==> dir[..|dir|] == dir;
      Success(t + map q | q in Ancestry(dir) && q !in t :: Directory)
  }

  /** `createNewFile`: an empty regular file, unless the path already exists. */
  function CreateNewFile(t: Tree, p: Path): (r: Tree)
    ensures p in r
    ensures forall q :: q in t ==> q in r && r[q] == t[q]
    ensures forall q :: q in r && q !in t ==> q == p && r[q] == RegularFile([])
  {
    if p in t then t else t[p := RegularFile([])]
  }

  /** Relative entries: what an archive holds, every path non-empty. */
  type Entries = e: Tree | forall p :: p in e ==> |p| > 0 witness map[]

  /**
   * Gradle's `sync` from an archive into dir: afterwards dir holds exactly the
   * archive's entries (anything else below dir is deleted); dir itself and
   * everything outside it are kept.
   */
  function Sync(t: Tree, dir: Path, entries: Entries): (r: Tree)
    ensures forall p :: p in entries ==> dir + p in r && r[dir + p] == entries[p]
    ensures forall q :: q in r && Under(dir, q) && q != dir ==> q[|dir|..] in entries
    ensures forall q :: !(Under(dir, q) && q != dir) ==> (q in r <==> q in t)
    ensures forall q :: q in t && !(Under(dir, q) && q != dir) ==> r[q] == t[q]
  {
    var kept := map q | q in t && !(Under(dir, q) && q != dir) :: t[q];
    var placed := map q | q in (set p | p in entries :: dir + p) :: entries[q[|dir|..]];
    assert forall p :: p in entries ==> (dir + p)[|dir|..] == p && (dir + p)[..|dir|] == dir;
    kept + placed
  }

  /** Some entry lies strictly below p. */
  predicate HasChildren<D>(t: FileSystem<D>, p: Path) {
    exists q :: q in t && Under(p, q) && q != p
  }

  /**
   * `Files.copy(in, p, REPLACE_EXISTING)`: p becomes a regular file holding
   * data.  It fails when the parent directory is missing, or when p is a
   * directory that is not empty.
   */
  function WriteFile<D(==)>(t: FileSystem<D>, p: Path, data: D): (r: Result<FileSystem<D>, Exception>)
    ensures r.Success? ==> r.value == t[p := RegularFile(data)]
    ensures r.Failure? <==>
      || |p| == 0
      || (|p| > 1 && !(p[..|p| - 1] in t && t[p[..|p| - 1]].Directory?))
      || (p in t && t[p].Directory? && HasChildren(t, p))
  {
    if |p| == 0 then Failure(IOException("/"))
    else if |p| > 1 && !(p[..|p| - 1] in t && t[p[..|p| - 1]].Directory?) then
      Failure(IOException(Render(p[..|p| - 1])))
    else if p in t && t[p].Directory? && HasChildren(t, p) then Failure(IOException(Render(p)))
    else Success(t[p := RegularFile(data)])
  }

  /**
   * `Files.writeString(p, text)`: p becomes a regular file holding data,
   * replacing a regular file; it fails on a directory or a missing parent.
   */
  function WriteString<D(==)>(t: FileSystem<D>, p: Path, data: D): (r: Result<FileSystem<D>, Exception>)
    ensures r.Success? ==> r.value == t[p := RegularFile(data)]
    ensures r.Failure? <==>
      || |p| == 0
      || (|p| > 1 && !(p[..|p| - 1] in t && t[p[..|p| - 1]].Directory?))
      || (p in t && t[p].Directory?)
  {
    if |p| == 0 then Failure(IOException("/"))
    else if |p| > 1 && !(p[..|p| - 1] in t && t[p[..|p| - 1]].Directory?) then
      Failure(IOException(Render(p[..|p| - 1])))
    else if p in t && t[p].Directory? then Failure(IOException(Render(p)))
    else Success(t[p := RegularFile(data)])
  }

  /** When every prefix is a directory already, `createDirectories` changes nothing. */
  lemma CreateDirectoriesExisting<D>(t: FileSystem<D>, dir: Path)
    requires forall q :: q in Ancestry(dir) ==> q in t && t[q] == Directory
    ensures CreateDirectories(t, dir) == Success(t)
  {
    var r := CreateDirectories(t, dir);
    assert r.Success?;
    assert forall p :: p in r.value <==> p in t;
    assert forall p :: p in t ==> r.value[p] == t[p];
    assert r.value == t;
  }

  /** Creating directories that all exist already changes nothing. */
  lemma CreateDirectoriesIdempotent<D>(t: FileSystem<D>, dir: Path)
    requires CreateDirectories(t, dir).Success?
    ensures CreateDirectories(CreateDirectories(t, dir).value, dir) == CreateDirectories(t, dir)
  {
    var t2 := CreateDirectories(t, dir).value;
    assert forall q :: q in Ancestry(dir) ==> q in t2 && !t2[q].RegularFile? by {
      forall q | q in Ancestry(dir) ensures q in t2 && !t2[q].RegularFile? {
        if q !in t {
          assert t2[q] == Directory;
        } else {
          assert t2[q] == t[q];
        }
      }
    }
    var m := map q | q in Ancestry(dir) && q !in t2 :: Directory;
    assert m == map[];
    assert t2 + m == t2;
  }
}
