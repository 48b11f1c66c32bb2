/**
 * The naming rules of the plugin: the task registered for each library, the
 * directory its sources are generated into, and where the jextract tool is
 * cached.
 */
module JextractPlugin {
  import opened Wrappers
  import opened Strings
  import opened FileTree
  import opened ToolService
  import opened JextractTask
  import opened LoaderGenerator

  const TaskGroup: string := "jextract"

  /** The tool cache, relative to the Gradle user home. */
  const RelativeToolCache: Path := ["caches", "jextract-tool"]

  /** `capitalize`: the first character in upper case, the rest as it is. */
  function Capitalize(name: string): (r: string)
    requires |name| > 0
    ensures |r| == |name| && r[0] == UpperChar(name[0]) && r[1..] == name[1..]
    ensures 'a' <= name[0] <= 'z' ==> 'A' <= r[0] <= 'Z'
    ensures !('a' <= name[0] <= 'z') ==> r == name
  {
    [UpperChar(name[0])] + name[1..]
  }

  /** A capitalized name is left as it is by a second capitalization. */
  lemma CapitalizeIdempotent(name: string)
    requires |name| > 0
    ensures Capitalize(Capitalize(name)) == Capitalize(name)
  {
  }

  /** `"generate" + capitalize(name) + "Bindings"` */
  function TaskName(name: string): (r: string)
    requires |name| > 0
    ensures StartsWith(r, "generate") && EndsWith(r, "Bindings")
    ensures |r| == |name| + 16 && r[8..|r| - 8] == Capitalize(name)
  {
    var r := "generate" + Capitalize(name) + "Bindings";
    assert r[..8] == "generate";
    assert r[|r| - 8..] == "Bindings";
    assert r[8..|r| - 8] == Capitalize(name);
    r
  }

  /**
   * Two libraries get the same task exactly when their names differ at most
   * in the case of a lower-case first letter (`opengl` and `Opengl`).
   */
  lemma TaskNameCollision(a: string, b: string)
    requires |a| > 0 && |b| > 0
    ensures TaskName(a) == TaskName(b) <==> UpperChar(a[0]) == UpperChar(b[0]) && a[1..] == b[1..]
  {
    if TaskName(a) == TaskName(b) {
      assert Capitalize(a) == TaskName(a)[8..|TaskName(a)| - 8];
      assert Capitalize(a)[0] == UpperChar(a[0]) && Capitalize(b)[0] == UpperChar(b[0]);
      assert Capitalize(a)[1..] == a[1..] && Capitalize(b)[1..] == b[1..];
    }
    if UpperChar(a[0]) == UpperChar(b[0]) && a[1..] == b[1..] {
      assert Capitalize(a) == Capitalize(b);
    }
  }

  lemma CapitalizeOpengl(name: string)
    requires name == "opengl"
    ensures Capitalize(name) == "Opengl"
  {
    assert name[1..] == "pengl";
  }

  lemma CapitalizeConfigLib(name: string)
    requires name == "configLib"
    ensures Capitalize(name) == "ConfigLib"
  {
    assert name[1..] == "onfigLib";
  }

  lemma OpenglTaskText()
    ensures "generate" + "Opengl" + "Bindings" == "generateOpenglBindings"
  {
  }

  lemma ConfigLibTaskText()
    ensures "generate" + "ConfigLib" + "Bindings" == "generateConfigLibBindings"
  {
  }

  /** The task names the plugin's tests expect for `opengl` and `configLib`. */
  lemma TaskNameExamples(opengl: string, configLib: string)
    requires opengl == "opengl" && configLib == "configLib"
    ensures TaskName(opengl) == "generateOpenglBindings"
    ensures TaskName(configLib) == "generateConfigLibBindings"
  {
    CapitalizeOpengl(opengl);
    OpenglTaskText();
    CapitalizeConfigLib(configLib);
    ConfigLibTaskText();
  }

  /** `<buildDir>/generated/sources/jextract/<name>` */
  function OutputDirectory(buildDir: Path, name: string): (r: Path)
    ensures Under(buildDir, r) && |r| == |buildDir| + 4 && r[|r| - 1] == name
    ensures r[|buildDir|..] == ["generated", "sources", "jextract", name]
  {
    var r := buildDir + ["generated", "sources", "jextract", name];
    assert r[..|buildDir|] == buildDir;
    r
  }

  /** Different libraries generate into different directories, side by side. */
  lemma OutputDirectoriesDistinct(buildDir: Path, a: string, b: string)
    requires a != b
    ensures OutputDirectory(buildDir, a) != OutputDirectory(buildDir, b)
    ensures OutputDirectory(buildDir, a)[..|buildDir| + 3] == OutputDirectory(buildDir, b)[..|buildDir| + 3]
  {
    var ra := OutputDirectory(buildDir, a);
    var rb := OutputDirectory(buildDir, b);
    assert ra[|ra| - 1] != rb[|rb| - 1];
    assert ra[..|buildDir| + 3] == buildDir + ["generated", "sources", "jextract"];
    assert rb[..|buildDir| + 3] == buildDir + ["generated", "sources", "jextract"];
  }

  /** The service's cache directory: `<gradleUserHome>/caches/jextract-tool`. */
  function ToolCacheDirectory(gradleUserHome: Path): (r: Path)
    ensures Under(gradleUserHome, r) && r[|gradleUserHome|..] == ["caches", "jextract-tool"]
  {
    var r := gradleUserHome + RelativeToolCache;
    assert r[..|gradleUserHome|] == gradleUserHome;
    r
  }

  /** The `toolVersion` of the extension, whose convention is the default version. */
  function ToolVersion(configured: Option<string>): (r: string)
    ensures configured.Some? ==> r == configured.value
    ensures configured.None? ==> r == DefaultVersion
  {
    match configured
    case Some(v) => v
    case None => DefaultVersion
  }

  /** Every version is cached directly in the tool cache (in the cache itself for an empty version). */
  lemma ToolDirectoryUnderCache(gradleUserHome: Path, version: string)
    ensures var dir := Resolve(ToolCacheDirectory(gradleUserHome), FolderName(version));
      && Under(gradleUserHome + ["caches", "jextract-tool"], dir)
      && |dir| <= |gradleUserHome| + 3
      && (FolderName(version) != "" ==> dir == gradleUserHome + ["caches", "jextract-tool", FolderName(version)])
  {
    var cache := ToolCacheDirectory(gradleUserHome);
    assert cache == gradleUserHome + ["caches", "jextract-tool"];
    var folder := FolderName(version);
    if folder != "" {
      assert (cache + [folder])[..|cache|] == cache;
    }
  }

  /** With no version configured the tool lives in `<gradleUserHome>/caches/jextract-tool/25-jextract_2-4`. */
  lemma DefaultToolDirectory(gradleUserHome: Path, configured: Option<string>)
    requires configured.None?
    ensures Resolve(ToolCacheDirectory(gradleUserHome), FolderName(ToolVersion(configured)))
      == gradleUserHome + ["caches", "jextract-tool", "25-jextract_2-4"]
  {
    var version := ToolVersion(configured);
    assert FolderName(version) == "25-jextract_2-4" by {
      FolderNameDefault(version);
    }
    ToolDirectoryUnderCache(gradleUserHome, version);
  }

  lemma NativeLibPackageText(pkg: string)
    requires pkg == "com.example.native_lib"
    ensures pkg == "com" + ['.'] + ("example" + ['.'] + "native_lib")
  {
    assert "example" + ['.'] + "native_lib" == "example.native_lib";
  }

  lemma NativeLibPackage(pkg: string)
    requires pkg == "com.example.native_lib"
    ensures pkg == Join(["com", "example", "native_lib"], '.')
  {
    NativeLibPackageText(pkg);
    var parts := ["com", "example", "native_lib"];
    assert parts[1..] == ["example", "native_lib"] && parts[1..][1..] == ["native_lib"];
    assert Join(parts[1..], '.') == "example" + ['.'] + "native_lib";
    assert Join(parts, '.') == "com" + ['.'] + ("example" + ['.'] + "native_lib");
  }

  lemma NativeHLoaderFileName(header: string)
    requires header == "native_h"
    ensures FinalClassName(header) + ".java" == "native_h_NativeLibraryLoader.java"
  {
  }

  /** The package `com.example.native_lib` is the directory `com/example/native_lib`. */
  lemma NativePackageDirectory(out: Path, pkg: string)
    requires pkg == "com.example.native_lib"
    ensures PackageDirectory(out, pkg) == out + ["com", "example", "native_lib"]
  {
    var parts := ["com", "example", "native_lib"];
    NativeLibPackage(pkg);
    PackagePartsOfJoin(parts);
    ResolveAllAppends(out, parts);
  }

  /** A class of the package `com.example.native_lib` lives in `com/example/native_lib`. */
  lemma NativePackageSourceFile(out: Path, pkg: string, className: string)
    requires pkg == "com.example.native_lib"
    ensures SourceFile(out, pkg, className) == out + ["com", "example", "native_lib", className + ".java"]
  {
    NativePackageDirectory(out, pkg);
  }

  /**
   * The native-loading functional test's layout: header `native.h` and
   * package `com.example.native_lib` put the loader at
   * `com/example/native_lib/native_h_NativeLibraryLoader.java` in the output
   * directory, which for the library `nativeLib` is
   * `build/generated/sources/jextract/nativeLib`.
   */
  lemma NativeLoadingLayoutExample(buildDir: Path, name: string, config: TaskConfig, stem: string)
    requires name == "nativeLib" && stem == "native"
    requires config.targetPackage == "com.example.native_lib" && config.headerClassName.None?
    requires |config.headerFile| > 0 && config.headerFile[|config.headerFile| - 1] == stem + ".h"
    ensures SourceFile(config.outputDirectory, config.targetPackage, FinalClassName(FinalHeaderClassName(config)))
      == config.outputDirectory + ["com", "example", "native_lib", "native_h_NativeLibraryLoader.java"]
    ensures OutputDirectory(buildDir, name) == buildDir + ["generated", "sources", "jextract", "nativeLib"]
  {
    var loader := FinalClassName(FinalHeaderClassName(config));
    NativeHeaderExample(config, stem);
    NativeHLoaderFileName(FinalHeaderClassName(config));
    assert SourceFile(config.outputDirectory, config.targetPackage, loader)
        == config.outputDirectory + ["com", "example", "native_lib", loader + ".java"] by {
      NativePackageSourceFile(config.outputDirectory, config.targetPackage, loader);
    }
  }
}
