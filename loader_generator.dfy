/**
 * The build-time half of native library loading: the generator writes a
 * `<Header>_NativeLibraryLoader` class into the package directory of the
 * generated bindings, and then has the injector make the header class call
 * its `load` method from a static initializer.
 */
module LoaderGenerator {
  import opened Wrappers
  import opened Strings
  import opened Exceptions
  import opened FileTree
  import opened JavaSource
  import opened LoaderInjector
  import opened LoaderRuntime

  const LoaderMethodName: string := "load"

  const LoaderSuffix: string := "_NativeLibraryLoader"

  /** `getFinalClassName`: the header class name with the loader suffix. */
  function FinalClassName(headerClassName: string): (r: string)
    ensures StartsWith(r, headerClassName) && EndsWith(r, LoaderSuffix)
    ensures |r| == |headerClassName| + |LoaderSuffix|
  {
    var r := headerClassName + LoaderSuffix;
    assert r[..|headerClassName|] == headerClassName;
    assert r[|r| - |LoaderSuffix|..] == LoaderSuffix;
    r
  }

  /** Different header classes get different loaders, and a loader never shares its header's name. */
  lemma FinalClassNameDistinct(h1: string, h2: string)
    ensures FinalClassName(h1) == FinalClassName(h2) ==> h1 == h2
    ensures FinalClassName(h1) != h1
    ensures FinalClassName(h1) + ".java" != h1 + ".java"
  {
    if FinalClassName(h1) == FinalClassName(h2) {
      assert h1 == FinalClassName(h1)[..|h1|];
    }
    assert |FinalClassName(h1) + ".java"| != |h1 + ".java"|;
  }

  /** Every piece of s between occurrences of c, empty pieces included. */
  function SplitOn(s: string, c: char): (r: seq<string>)
    ensures |r| > 0
    ensures forall i :: 0 <= i < |r| ==> c !in r[i]
  {
    if |s| == 0 then [""]
    else
      var rest := SplitOn(s[1..], c);
      if s[0] == c then [""] + rest
      else [[s[0]] + rest[0]] + rest[1..]
  }

  /** The pieces joined with c between them. */
  function Join(parts: seq<string>, c: char): string
    requires |parts| > 0
  {
    if |parts| == 1 then parts[0] else parts[0] + [c] + Join(parts[1..], c)
  }

  lemma {:induction false} SplitOnPrefix(a: string, t: string, c: char)
    requires c !in a
    ensures SplitOn(a + t, c) == [a + SplitOn(t, c)[0]] + SplitOn(t, c)[1..]
    decreases |a|
  {
    var split := SplitOn(t, c);
    if a == [] {
      assert a + t == t;
      assert a + split[0] == split[0];
      assert [split[0]] + split[1..] == split;
    } else {
      assert a[0] in a;
      assert (a + t)[0] == a[0] && (a + t)[1..] == a[1..] + t;
      SplitOnPrefix(a[1..], t, c);
      var rest := SplitOn(a[1..] + t, c);
      assert rest[0] == a[1..] + split[0] && rest[1..] == split[1..];
      assert [a[0]] + (a[1..] + split[0]) == a + split[0];
    }
  }

  /** Splitting undoes joining when no piece contains the separator. */
  lemma {:induction false} SplitJoin(parts: seq<string>, c: char)
    requires |parts| > 0
    requires forall i :: 0 <= i < |parts| ==> c !in parts[i]
    ensures SplitOn(Join(parts, c), c) == parts
    decreases |parts|
  {
    if |parts| == 1 {
      SplitOnPrefix(parts[0], "", c);
      assert parts[0] + "" == parts[0];
    } else {
      var tail := Join(parts[1..], c);
      assert Join(parts, c) == parts[0] + ([c] + tail);
      SplitOnPrefix(parts[0], [c] + tail, c);
      assert ([c] + tail)[0] == c && ([c] + tail)[1..] == tail;
      assert SplitOn([c] + tail, c) == [""] + SplitOn(tail, c);
      assert parts[0] + "" == parts[0];
      SplitJoin(parts[1..], c);
      assert parts == [parts[0]] + parts[1..];
    }
  }

  /** Java's `split` with a zero limit drops the trailing empty strings. */
  function DropTrailingEmpty(parts: seq<string>): (r: seq<string>)
    ensures |r| <= |parts| && r == parts[..|r|]
    ensures |r| > 0 ==> r[|r| - 1] != ""
    ensures forall i :: |r| <= i < |parts| ==> parts[i] == ""
  {
    if |parts| > 0 && parts[|parts| - 1] == "" then DropTrailingEmpty(parts[..|parts| - 1]) else parts
  }

  /** `targetPackage.split("\\.")`: a name without a dot is its own single part. */
  function PackageParts(targetPackage: string): seq<string> {
    if '.' !in targetPackage then [targetPackage] else DropTrailingEmpty(SplitOn(targetPackage, '.'))
  }

  /** A package name made of non-empty dot-free parts splits back into exactly those parts. */
  lemma PackagePartsOfJoin(parts: seq<string>)
    requires |parts| > 0
    requires forall i :: 0 <= i < |parts| ==> |parts[i]| > 0 && '.' !in parts[i]
    ensures PackageParts(Join(parts, '.')) == parts
  {
    SplitJoin(parts, '.');
    if '.' !in Join(parts, '.') {
      assert SplitOn(Join(parts, '.'), '.') == [Join(parts, '.')];
    }
  }

  /** `current = current.resolve(part)` over the parts, in order. */
  function ResolveAll(base: Path, parts: seq<string>): Path {
    if parts == [] then base else Resolve(ResolveAll(base, parts[..|parts| - 1]), parts[|parts| - 1])
  }

  /** Resolving non-empty parts appends them as segments. */
  lemma {:induction false} ResolveAllAppends(base: Path, parts: seq<string>)
    requires forall i :: 0 <= i < |parts| ==> parts[i] != ""
    ensures ResolveAll(base, parts) == base + parts
    decreases |parts|
  {
    if parts != [] {
      var init := parts[..|parts| - 1];
      ResolveAllAppends(base, init);
      assert parts == init + [parts[|parts| - 1]];
    }
  }

  /** The directory of the package below the output directory. */
  function PackageDirectory(outputDirectory: Path, targetPackage: string): Path {
    ResolveAll(outputDirectory, PackageParts(targetPackage))
  }

  /** The file a class is written to. */
  function SourceFile(outputDirectory: Path, targetPackage: string, className: string): Path {
    PackageDirectory(outputDirectory, targetPackage) + [className + ".java"]
  }

  /** The members `generate` adds whatever the configuration. */
  const CoreMembers: seq<Member> := [
    Field("loaded"),
    Constructor,
    MethodDecl("load", true),
    MethodDecl("expandResourcePath", false),
    MethodDecl("detectOsName", false),
    MethodDecl("detectOsArch", false),
    MethodDecl("getLibraryFileName", false),
    MethodDecl("getExtractionDirectory", false),
    MethodDecl("extractLibrary", false)
  ]

  /** The members added for caching. */
  const CachingMembers: seq<Member> := [
    MethodDecl("getCachedLibrary", false),
    MethodDecl("computeHash", false)
  ]

  /** The loader class's members, in the order `generate` adds them. */
  function LoaderMembers(enableCaching: bool): seq<Member> {
    CoreMembers + (if enableCaching then CachingMembers else [])
  }

  /**
   * The caching members are present exactly when caching is enabled; `load`
   * is the one public method; no member is declared twice.
   */
  lemma LoaderMembersShape(enableCaching: bool)
    ensures MethodDecl("getCachedLibrary", false) in LoaderMembers(enableCaching) <==> enableCaching
    ensures MethodDecl("computeHash", false) in LoaderMembers(enableCaching) <==> enableCaching
    ensures forall m :: m in LoaderMembers(enableCaching) && m.MethodDecl? && m.isPublic ==> m.name == LoaderMethodName
    ensures MethodDecl(LoaderMethodName, true) in LoaderMembers(enableCaching)
    ensures forall i, j :: 0 <= i < j < |LoaderMembers(enableCaching)| ==>
      LoaderMembers(enableCaching)[i] != LoaderMembers(enableCaching)[j]
    ensures LoaderMembers(false) == LoaderMembers(enableCaching)[..|CoreMembers|]
  {
    var ms := LoaderMembers(enableCaching);
    assert ms[2] == MethodDecl(LoaderMethodName, true);
    CachingMembersNotCore();
    CorePublicIsLoad();
    CoreMembersDistinct();
    if enableCaching {
      CachingMembersPrivate();
      assert ms[..|CoreMembers|] == CoreMembers;
    } else {
      assert ms == CoreMembers;
    }
  }

  /** The caching members are not among the core ones. */
  lemma CachingMembersNotCore()
    ensures forall m :: m in CachingMembers ==> m !in CoreMembers
  {
  }

  /** Among the core members, `load` is the one public method. */
  lemma CorePublicIsLoad()
    ensures forall m :: m in CoreMembers && m.MethodDecl? && m.isPublic ==> m.name == LoaderMethodName
  {
  }

  lemma CoreMembersDistinct()
    ensures forall i, j :: 0 <= i < j < |CoreMembers| ==> CoreMembers[i] != CoreMembers[j]
  {
  }

  /** The two caching members are private and different. */
  lemma CachingMembersPrivate()
    ensures forall m :: m in CachingMembers ==> m.MethodDecl? && !m.isPublic
    ensures CachingMembers[0] != CachingMembers[1]
  {
  }

  /** The compilation unit `generate` writes. */
  function LoaderUnit(targetPackage: string, headerClassName: string, enableCaching: bool): CompilationUnit {
    CompilationUnit(targetPackage, [ClassDecl(FinalClassName(headerClassName), LoaderMembers(enableCaching))])
  }

  /** `generate` over the tree of sources: create the package directory, then write the loader. */
  function GenerateSpec(fs: FileSystem<CompilationUnit>, outputDirectory: Path, targetPackage: string,
                        headerClassName: string, enableCaching: bool)
    : (Result<(), Exception>, FileSystem<CompilationUnit>)
  {
    match CreateDirectories(fs, PackageDirectory(outputDirectory, targetPackage))
    case Failure(e) => (Failure(e), fs)
    case Success(fs1) =>
      match WriteString(fs1, SourceFile(outputDirectory, targetPackage, FinalClassName(headerClassName)),
                        LoaderUnit(targetPackage, headerClassName, enableCaching))
      case Failure(e) => (Failure(e), fs1)
      case Success(fs2) => (Success(()), fs2)
  }

  function HeaderNotFound(targetFile: Path): Exception {
    IllegalStateException("Header class not found: " + Render(targetFile))
  }

  /** `injectLoader`: the header class's file must exist; the injector calls the loader's `load`. */
  function InjectLoaderSpec(fs: FileSystem<CompilationUnit>, outputDirectory: Path, targetPackage: string,
                            headerClassName: string): (Result<(), Exception>, FileSystem<CompilationUnit>)
  {
    match CreateDirectories(fs, PackageDirectory(outputDirectory, targetPackage))
    case Failure(e) => (Failure(e), fs)
    case Success(fs1) =>
      var targetFile := SourceFile(outputDirectory, targetPackage, headerClassName);
      if targetFile !in fs1 then (Failure(HeaderNotFound(targetFile)), fs1)
      else InjectFile(fs1, targetFile, headerClassName, FinalClassName(headerClassName), LoaderMethodName)
  }

  /**
   * A successful `generate` puts the loader unit at `<package dir>/<Loader>.java`
   * and changes no other file: every other entry is kept, and the new ones
   * are the package directories.
   */
  lemma GenerateWritesLoader(fs: FileSystem<CompilationUnit>, outputDirectory: Path, targetPackage: string,
                             headerClassName: string, enableCaching: bool)
    requires GenerateSpec(fs, outputDirectory, targetPackage, headerClassName, enableCaching).0.Success?
    ensures var fs2 := GenerateSpec(fs, outputDirectory, targetPackage, headerClassName, enableCaching).1;
      var loaderFile := SourceFile(outputDirectory, targetPackage, FinalClassName(headerClassName));
      && loaderFile in fs2
      && fs2[loaderFile] == RegularFile(LoaderUnit(targetPackage, headerClassName, enableCaching))
      && (forall p :: p in fs && p != loaderFile ==> p in fs2 && fs2[p] == fs[p])
      && (forall p :: p in fs2 && p !in fs && p != loaderFile ==>
            p in Ancestry(PackageDirectory(outputDirectory, targetPackage)) && fs2[p] == Directory)
  {
  }

  /** `generate` fails exactly when a package directory is blocked by a file or the loader's path is a directory. */
  lemma GenerateFails(fs: FileSystem<CompilationUnit>, outputDirectory: Path, targetPackage: string,
                      headerClassName: string, enableCaching: bool)
    ensures var dir := PackageDirectory(outputDirectory, targetPackage);
      var loaderFile := SourceFile(outputDirectory, targetPackage, FinalClassName(headerClassName));
      GenerateSpec(fs, outputDirectory, targetPackage, headerClassName, enableCaching).0.Failure? <==>
        || (exists q :: q in Ancestry(dir) && q in fs && fs[q].RegularFile?)
        || (loaderFile in fs && fs[loaderFile].Directory?)
  {
    var dir := PackageDirectory(outputDirectory, targetPackage);
    var loaderFile := SourceFile(outputDirectory, targetPackage, FinalClassName(headerClassName));
    var created := CreateDirectories(fs, dir);
    if created.Success? {
      assert loaderFile[..|loaderFile| - 1] == dir;
      assert loaderFile !in Ancestry(dir) by {
        assert forall q :: q in Ancestry(dir) ==> |q| <= |dir|;
      }
    }
  }

  /** Without the header class's file, `injectLoader` fails with IllegalStateException naming the path. */
  lemma InjectLoaderNeedsHeader(fs: FileSystem<CompilationUnit>, outputDirectory: Path, targetPackage: string,
                                headerClassName: string)
    requires CreateDirectories(fs, PackageDirectory(outputDirectory, targetPackage)).Success?
    requires SourceFile(outputDirectory, targetPackage, headerClassName) !in fs
    ensures InjectLoaderSpec(fs, outputDirectory, targetPackage, headerClassName).0 ==
      Failure(HeaderNotFound(SourceFile(outputDirectory, targetPackage, headerClassName)))
    ensures Contains(InjectLoaderSpec(fs, outputDirectory, targetPackage, headerClassName).0.error.message,
                     Render(SourceFile(outputDirectory, targetPackage, headerClassName)))
  {
    var dir := PackageDirectory(outputDirectory, targetPackage);
    var targetFile := SourceFile(outputDirectory, targetPackage, headerClassName);
    assert targetFile !in Ancestry(dir) by {
      assert forall q :: q in Ancestry(dir) ==> |q| <= |dir|;
    }
    var head := "Header class not found: ";
    var message := head + Render(targetFile);
    assert message[|head|..|head| + |Render(targetFile)|] == Render(targetFile);
    ContainsAt(message, Render(targetFile), |head|);
  }

  /**
   * `generate` followed by `injectLoader`, for a header class that is there
   * and not yet injected: the loader is written, and the header file holds
   * the injected unit, whose class ends with a static initializer calling
   * `<Header>_NativeLibraryLoader.load()` (InjectAppendsOneBlock).
   */
  lemma GenerateThenInject(fs: FileSystem<CompilationUnit>, outputDirectory: Path, targetPackage: string,
                           headerClassName: string, enableCaching: bool, fs2: FileSystem<CompilationUnit>)
    requires GenerateSpec(fs, outputDirectory, targetPackage, headerClassName, enableCaching) == (Success(()), fs2)
    requires Rewrites(fs, SourceFile(outputDirectory, targetPackage, headerClassName), headerClassName,
                      FinalClassName(headerClassName), LoaderMethodName)
    ensures var headerFile := SourceFile(outputDirectory, targetPackage, headerClassName);
      var loaderFile := SourceFile(outputDirectory, targetPackage, FinalClassName(headerClassName));
      InjectLoaderSpec(fs2, outputDirectory, targetPackage, headerClassName) ==
        (Success(()), fs2[headerFile := RegularFile(InjectUnit(fs[headerFile].data, headerClassName,
                                                               FinalClassName(headerClassName), LoaderMethodName).unit)])
      && loaderFile in fs2
      && fs2[loaderFile] == RegularFile(LoaderUnit(targetPackage, headerClassName, enableCaching))
      && loaderFile != headerFile
  {
    var headerFile := SourceFile(outputDirectory, targetPackage, headerClassName);
    var loaderFile := SourceFile(outputDirectory, targetPackage, FinalClassName(headerClassName));
    var loaderClassName := FinalClassName(headerClassName);
    assert headerFile != loaderFile by {
      FinalClassNameDistinct(headerClassName, headerClassName);
      assert headerFile[|headerFile| - 1] != loaderFile[|loaderFile| - 1];
    }
    assert loaderFile in fs2 && fs2[loaderFile] == RegularFile(LoaderUnit(targetPackage, headerClassName, enableCaching))
        && headerFile in fs2 && fs2[headerFile] == fs[headerFile] by {
      GenerateWritesLoader(fs, outputDirectory, targetPackage, headerClassName, enableCaching);
    }
    assert CreateDirectories(fs2, PackageDirectory(outputDirectory, targetPackage)) == Success(fs2) by {
      GenerateLeavesDirectories(fs, outputDirectory, targetPackage, headerClassName, enableCaching);
    }
    InjectLoaderExisting(fs2, outputDirectory, targetPackage, headerClassName);
    InjectFileRewrites(fs2, headerFile, headerClassName, loaderClassName, LoaderMethodName);
  }

  /** After `generate`, the package directories all exist, so creating them again changes nothing. */
  lemma GenerateLeavesDirectories(fs: FileSystem<CompilationUnit>, outputDirectory: Path, targetPackage: string,
                                  headerClassName: string, enableCaching: bool)
    requires GenerateSpec(fs, outputDirectory, targetPackage, headerClassName, enableCaching).0.Success?
    ensures var fs2 := GenerateSpec(fs, outputDirectory, targetPackage, headerClassName, enableCaching).1;
      CreateDirectories(fs2, PackageDirectory(outputDirectory, targetPackage)) == Success(fs2)
  {
    var dir := PackageDirectory(outputDirectory, targetPackage);
    var loaderFile := SourceFile(outputDirectory, targetPackage, FinalClassName(headerClassName));
    var fs1 := CreateDirectories(fs, dir).value;
    var fs2 := GenerateSpec(fs, outputDirectory, targetPackage, headerClassName, enableCaching).1;
    assert fs2 == fs1[loaderFile := RegularFile(LoaderUnit(targetPackage, headerClassName, enableCaching))];
    assert forall q :: q in Ancestry(dir) ==> |q| <= |dir|;
    CreateDirectoriesExisting(fs2, dir);
  }

  /** With the package directories in place and the header file present, `injectLoader` is the injector's `inject`. */
  lemma InjectLoaderExisting(fs: FileSystem<CompilationUnit>, outputDirectory: Path, targetPackage: string,
                             headerClassName: string)
    requires CreateDirectories(fs, PackageDirectory(outputDirectory, targetPackage)) == Success(fs)
    requires SourceFile(outputDirectory, targetPackage, headerClassName) in fs
    ensures InjectLoaderSpec(fs, outputDirectory, targetPackage, headerClassName) ==
      InjectFile(fs, SourceFile(outputDirectory, targetPackage, headerClassName), headerClassName,
                 FinalClassName(headerClassName), LoaderMethodName)
  {
  }

  lemma ComExamplePackage(pkg: string)
    requires pkg == "com.example"
    ensures pkg == Join(["com", "example"], '.')
  {
    var parts := ["com", "example"];
    assert parts[1..] == ["example"];
    assert Join(parts, '.') == "com" + ['.'] + "example";
  }

  lemma MyLibLoaderFileName(header: string)
    requires header == "MyLib"
    ensures FinalClassName(header) + ".java" == "MyLib_NativeLibraryLoader.java"
  {
  }

  /** The generated bindings' package layout of the unit tests: `com.example` and `MyLib`. */
  lemma LoaderFileExample(out: Path, pkg: string, header: string)
    requires pkg == "com.example" && header == "MyLib"
    ensures SourceFile(out, pkg, FinalClassName(header)) == out + ["com", "example", "MyLib_NativeLibraryLoader.java"]
  {
    var parts := ["com", "example"];
    assert PackageDirectory(out, pkg) == out + parts by {
      ComExamplePackage(pkg);
      PackagePartsOfJoin(parts);
      ResolveAllAppends(out, parts);
    }
    MyLibLoaderFileName(header);
    assert out + parts + ["MyLib_NativeLibraryLoader.java"] == out + ["com", "example", "MyLib_NativeLibraryLoader.java"];
  }

  /** The generator: its configuration and the tree of source files it works on. */
  class NativeLibraryLoaderGenerator {
    const targetPackage: string
    const headerClassName: string
    const config: LoadingConfig
    const outputDirectory: Path
    var fs: FileSystem<CompilationUnit>

    constructor(targetPackage: string, headerClassName: string, config: LoadingConfig, outputDirectory: Path,
                fs: FileSystem<CompilationUnit>)
      ensures this.targetPackage == targetPackage && this.headerClassName == headerClassName
      ensures this.config == config && this.outputDirectory == outputDirectory && this.fs == fs
    {
      this.targetPackage := targetPackage;
      this.headerClassName := headerClassName;
      this.config := config;
      this.outputDirectory := outputDirectory;
      this.fs := fs;
    }

    /** `createPackageDirectory`: resolve each part of the package in turn, then create the directories. */
    method CreatePackageDirectory() returns (r: Result<Path, Exception>)
      modifies this
      ensures var created := CreateDirectories(old(fs), PackageDirectory(outputDirectory, targetPackage));
        && (created.Failure? ==> r == Failure(created.error) && fs == old(fs))
        && (created.Success? ==> r == Success(PackageDirectory(outputDirectory, targetPackage)) && fs == created.value)
    {
      var packageParts := PackageParts(targetPackage);
      var current := outputDirectory;
      for i := 0 to |packageParts|
        invariant current == ResolveAll(outputDirectory, packageParts[..i])
      {
        assert packageParts[..i + 1][..i] == packageParts[..i];
        current := Resolve(current, packageParts[i]);
      }
      assert packageParts[..|packageParts|] == packageParts;
      var created := CreateDirectories(fs, current);
      if created.Failure? {
        return Failure(created.error);
      }
      fs := created.value;
      r := Success(current);
    }

    /** `generate`: build the loader class member by member, then write it into the package directory. */
    method Generate() returns (r: Result<(), Exception>)
      modifies this
      ensures (r, fs) == GenerateSpec(old(fs), outputDirectory, targetPackage, headerClassName, config.enableCaching)
    {
      var className := FinalClassName(headerClassName);
      var members: seq<Member> := [];
      members := members + [Field("loaded")];
      members := members + [Constructor];
      members := members + [MethodDecl("load", true), MethodDecl("expandResourcePath", false)];
      members := members + [MethodDecl("detectOsName", false), MethodDecl("detectOsArch", false)];
      members := members + [MethodDecl("getLibraryFileName", false), MethodDecl("getExtractionDirectory", false),
                            MethodDecl("extractLibrary", false)];
      if config.enableCaching {
        members := members + [MethodDecl("getCachedLibrary", false), MethodDecl("computeHash", false)];
      }
      assert members == LoaderMembers(config.enableCaching);
      var unit := CompilationUnit(targetPackage, [ClassDecl(className, members)]);
      var packagePath := CreatePackageDirectory();
      if packagePath.Failure? {
        return Failure(packagePath.error);
      }
      var written := WriteString(fs, packagePath.value + [className + ".java"], unit);
      if written.Failure? {
        return Failure(written.error);
      }
      fs := written.value;
      r := Success(());
    }

    /** `injectLoader`: the header class's file must exist; then the injector adds the `load` call. */
    method InjectLoader() returns (r: Result<(), Exception>)
      modifies this
      ensures (r, fs) == InjectLoaderSpec(old(fs), outputDirectory, targetPackage, headerClassName)
    {
      var packagePath := CreatePackageDirectory();
      if packagePath.Failure? {
        return Failure(packagePath.error);
      }
      var targetFile := packagePath.value + [headerClassName + ".java"];
      if targetFile !in fs {
        return Failure(HeaderNotFound(targetFile));
      }
      var injector := new NativeLibraryLoaderInjector(targetFile, headerClassName, FinalClassName(headerClassName),
                                                      LoaderMethodName, fs);
      r := injector.Inject();
      fs := injector.fs;
    }
  }
}
