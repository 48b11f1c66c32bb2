/**
 * The `generate<Name>Bindings` task: it works out the header class name,
 * builds the jextract command line, runs the tool and, when a resource path
 * for the native library is configured, generates the loader class and
 * injects its call into the header class.
 */
module JextractTask {
  import opened Wrappers
  import opened Strings
  import opened Exceptions
  import opened FileTree
  import opened JavaSource
  import opened LoaderRuntime
  import opened LoaderInjector
  import opened LoaderGenerator

  /** The nested `nativeLibraryLoading` block: three optional settings. */
  datatype NativeLoading = NativeLoading(resourcePath: Option<string>, extractionDir: Option<Path>,
                                         enableCaching: Option<bool>)

  /** The task's inputs. */
  datatype TaskConfig = TaskConfig(
    headerFile: Path,
    targetPackage: string,
    compilerArgs: seq<string>,
    headerClassName: Option<string>,
    libraryName: Option<string>,
    nativeLibraryLoading: NativeLoading,
    outputDirectory: Path)

  /** `File.getName()`: the last segment of the path. */
  function FileName(p: Path): string {
    if |p| == 0 then "" else p[|p| - 1]
  }

  /** A `.h` starts at index `i` of `s`. */
  predicate DotHAt(s: string, i: int) {
    0 <= i && i + 1 < |s| && s[i] == '.' && s[i + 1] == 'h'
  }

  /** `r` is `s` with exactly the dots that start a `.h` turned into underscores, and holds no `.h`. */
  predicate DotHRenamed(s: string, r: string) {
    && |r| == |s|
    && (forall i :: 0 <= i < |s| ==> r[i] == (if DotHAt(s, i) then '_' else s[i]))
    && (forall i :: 0 <= i < |s| ==> (r[i] != s[i] <==> DotHAt(s, i)))
    && !Contains(r, ".h")
  }

  /**
   * Every `.h` in the file name, left to right, becomes `_h`: the name keeps
   * its length, exactly the dots that start a `.h` change (to underscores),
   * and no `.h` is left.
   */
  lemma {:induction false} DotHReplaced(s: string)
    ensures DotHRenamed(s, ReplaceAll(s, ".h", "_h"))
    decreases |s|
  {
    var r := ReplaceAll(s, ".h", "_h");
    if |s| < 2 {
      assert r == s;
      if |s| == 1 {
        assert r[1..] == [];
      }
    } else if s[..2] == ".h" {
      var t := ReplaceAll(s[2..], ".h", "_h");
      DotHReplaced(s[2..]);
      assert r == "_h" + t;
      assert r[1..] == "h" + t;
      assert r[1..][1..] == t;
      forall i | 0 <= i < |s|
        ensures r[i] == (if DotHAt(s, i) then '_' else s[i])
      {
        if i >= 2 {
          assert r[i] == t[i - 2] && s[i] == s[2..][i - 2];
          assert DotHAt(s, i) <==> DotHAt(s[2..], i - 2);
        } else {
          assert s[i] == s[..2][i];
        }
      }
    } else {
      var t := ReplaceAll(s[1..], ".h", "_h");
      DotHReplaced(s[1..]);
      assert r == [s[0]] + t;
      assert r[1..] == t;
      assert !DotHAt(s, 0) by {
        assert s[..2] == [s[0], s[1]];
      }
      forall i | 0 <= i < |s|
        ensures r[i] == (if DotHAt(s, i) then '_' else s[i])
      {
        if i >= 1 {
          assert r[i] == t[i - 1] && s[i] == s[1..][i - 1];
          assert DotHAt(s, i) <==> DotHAt(s[1..], i - 1);
        }
      }
      if s[0] == '.' {
        assert s[1] != 'h';
        assert t[0] != 'h' by {
          assert s[1..][0] == s[1];
        }
      }
      assert !StartsWith(r, ".h");
    }
  }

  /** A file name `<stem>.h` whose stem has no dot becomes `<stem>_h`. */
  lemma HeaderStem(stem: string)
    requires '.' !in stem
    ensures ReplaceAll(stem + ".h", ".h", "_h") == stem + "_h"
  {
    ReplaceSkip(stem, ".h", ".h", "_h");
    ReplaceFront("", ".h", "_h");
    assert ".h" + "" == ".h";
  }

  /** `getFinalHeaderClassName`: the configured name, else the header file's name with `.h` turned into `_h`. */
  function FinalHeaderClassName(config: TaskConfig): (r: string)
    ensures config.headerClassName.Some? ==> r == config.headerClassName.value
    ensures config.headerClassName.None? ==>
      DotHRenamed(FileName(config.headerFile), r)
  {
    match config.headerClassName
    case Some(name) => name
    case None =>
      DotHReplaced(FileName(config.headerFile));
      ReplaceAll(FileName(config.headerFile), ".h", "_h")
  }

  /** The functional tests' header `native.h` gives the class `native_h`. */
  lemma NativeHeaderExample(config: TaskConfig, stem: string)
    requires stem == "native" && config.headerClassName.None?
    requires |config.headerFile| > 0 && config.headerFile[|config.headerFile| - 1] == stem + ".h"
    ensures FinalHeaderClassName(config) == "native_h"
  {
    HeaderStem(stem);
  }

  const OneOptionMessage: string :=
    "Only one library loading option can be configured: libraryName, libraryPath, or nativeLibraryLoading.resourcePath"

  /** `-l <name>` when a system library name is configured. */
  function LibraryArgs(libraryName: Option<string>): (r: seq<string>)
    ensures libraryName.None? <==> r == []
    ensures libraryName.Some? ==> r == ["-l", libraryName.value]
  {
    match libraryName
    case None => []
    case Some(name) => ["-l", name]
  }

  /** Both `libraryName` and a resource path configured. */
  predicate TooManyOptions(config: TaskConfig) {
    config.libraryName.Some? && config.nativeLibraryLoading.resourcePath.Some?
  }

  /** The command line jextract is run with, or the exception that prevents it. */
  function ExpectedArgs(config: TaskConfig, executable: string): Result<seq<string>, Exception> {
    if TooManyOptions(config) then Failure(GradleException(OneOptionMessage, None))
    else Success([executable, "--output", Render(config.outputDirectory), "--target-package", config.targetPackage,
                  "--header-class-name", FinalHeaderClassName(config)]
                 + config.compilerArgs + LibraryArgs(config.libraryName) + [Render(config.headerFile)])
  }

  /**
   * The layout the tool relies on: the executable first, the output, the
   * package and the class as values of their options at positions 2, 4 and
   * 6, the compiler arguments in order from position 7, `-l <name>` right
   * before the header exactly when a library name is configured, the header
   * last; and nothing at all when both library options are configured.
   */
  lemma ArgsLayout(config: TaskConfig, executable: string)
    ensures ExpectedArgs(config, executable).Failure? <==> TooManyOptions(config)
    ensures ExpectedArgs(config, executable).Failure? ==>
      ExpectedArgs(config, executable).error == GradleException(OneOptionMessage, None)
    ensures ExpectedArgs(config, executable).Success? ==>
      var args := ExpectedArgs(config, executable).value;
      var n := |config.compilerArgs|;
      && |args| == 8 + n + (if config.libraryName.Some? then 2 else 0)
      && args[0] == executable
      && args[1] == "--output" && args[2] == Render(config.outputDirectory)
      && args[3] == "--target-package" && args[4] == config.targetPackage
      && args[5] == "--header-class-name" && args[6] == FinalHeaderClassName(config)
      && args[7..7 + n] == config.compilerArgs
      && args[|args| - 1] == Render(config.headerFile)
      && (config.libraryName.Some? ==> args[7 + n..] == ["-l", config.libraryName.value, Render(config.headerFile)])
      && (config.libraryName.None? ==> args[7 + n..] == [Render(config.headerFile)])
  {
    if !TooManyOptions(config) {
      var args := ExpectedArgs(config, executable).value;
      var head := [executable, "--output", Render(config.outputDirectory), "--target-package", config.targetPackage,
                   "--header-class-name", FinalHeaderClassName(config)];
      assert args == head + config.compilerArgs + LibraryArgs(config.libraryName) + [Render(config.headerFile)];
      assert args[7..7 + |config.compilerArgs|] == config.compilerArgs;
      assert args[7 + |config.compilerArgs|..] == LibraryArgs(config.libraryName) + [Render(config.headerFile)];
    }
  }

  /**
   * `-l` is passed exactly when a library name is configured, as long as
   * none of the other arguments happens to be `-l` itself.
   */
  lemma LibraryFlagIffName(config: TaskConfig, executable: string)
    requires !TooManyOptions(config)
    requires "-l" !in config.compilerArgs
    requires "-l" !in {executable, Render(config.outputDirectory), config.targetPackage,
                       FinalHeaderClassName(config), Render(config.headerFile)}
    ensures "-l" in ExpectedArgs(config, executable).value <==> config.libraryName.Some?
  {
    var args := ExpectedArgs(config, executable).value;
    var n := |config.compilerArgs|;
    ArgsLayout(config, executable);
    if config.libraryName.Some? {
      assert args[7 + n] == "-l";
    } else {
      forall i | 0 <= i < |args| ensures args[i] != "-l" {
        if 7 <= i < 7 + n {
          assert args[i] == args[7..7 + n][i - 7];
        }
      }
    }
  }

  /** What the nested block hands to the generator: the resource path, the directory, caching off unless set. */
  function GeneratorConfig(loading: NativeLoading): (r: LoadingConfig)
    requires loading.resourcePath.Some?
    ensures r.resourcePath == loading.resourcePath.value && r.extractionDir == loading.extractionDir
    ensures r.enableCaching <==> loading.enableCaching == Some(true)
  {
    LoadingConfig(loading.resourcePath.value, loading.extractionDir,
                  match loading.enableCaching case Some(b) => b case None => false)
  }

  /** The actions `run` takes, in order. */
  datatype Step = RunTool(args: seq<string>) | GenerateLoader | InjectLoader

  /** The jextract process: from the command line and the tree, its outcome and the tree it leaves. */
  type ToolRun = (seq<string>, FileSystem<CompilationUnit>) -> (Result<(), Exception>, FileSystem<CompilationUnit>)

  /** `run`: the outcome, the final tree of sources and the actions taken. */
  function RunSpec(config: TaskConfig, executable: Result<string, Exception>, jextract: ToolRun,
                   fs: FileSystem<CompilationUnit>): (Result<(), Exception>, FileSystem<CompilationUnit>, seq<Step>)
  {
    match executable
    case Failure(e) => (Failure(e), fs, [])
    case Success(exe) =>
      match ExpectedArgs(config, exe)
      case Failure(e) => (Failure(e), fs, [])
      case Success(args) =>
        var (ran, fs1) := jextract(args, fs);
        if ran.Failure? then (ran, fs1, [RunTool(args)])
        else if config.nativeLibraryLoading.resourcePath.None? then (Success(()), fs1, [RunTool(args)])
        else
          var header := FinalHeaderClassName(config);
          var (generated, fs2) := GenerateSpec(fs1, config.outputDirectory, config.targetPackage, header,
                                               GeneratorConfig(config.nativeLibraryLoading).enableCaching);
          if generated.Failure? then (generated, fs2, [RunTool(args), GenerateLoader])
          else
            var (injected, fs3) := InjectLoaderSpec(fs2, config.outputDirectory, config.targetPackage, header);
            (injected, fs3, [RunTool(args), GenerateLoader, InjectLoader])
  }

  /**
   * The order of `run`: nothing happens before the command line is built; the
   * loader is generated only when a resource path is configured and only
   * after jextract succeeded, and the injection comes right after a
   * successful generation; a successful run took exactly these steps.
   */
  lemma RunOrder(config: TaskConfig, executable: Result<string, Exception>, jextract: ToolRun,
                 fs: FileSystem<CompilationUnit>)
    ensures var (r, _, steps) := RunSpec(config, executable, jextract, fs);
      && (|steps| > 0 <==> executable.Success? && !TooManyOptions(config))
      && (|steps| > 0 ==> steps[0] == RunTool(ExpectedArgs(config, executable.value).value))
      && (GenerateLoader in steps ==>
            && config.nativeLibraryLoading.resourcePath.Some?
            && |steps| >= 2 && steps[1] == GenerateLoader
            && jextract(steps[0].args, fs).0.Success?)
      && (InjectLoader in steps ==> |steps| == 3 && steps[1] == GenerateLoader && steps[2] == InjectLoader)
      && (r.Success? ==>
            steps == [steps[0]] + (if config.nativeLibraryLoading.resourcePath.Some? then [GenerateLoader, InjectLoader]
                                   else []))
  {
  }

  /** With both library options set, `run` fails before running anything and changes nothing. */
  lemma RunRejectsBothOptions(config: TaskConfig, executable: string, jextract: ToolRun,
                              fs: FileSystem<CompilationUnit>)
    requires TooManyOptions(config)
    ensures RunSpec(config, Success(executable), jextract, fs) ==
      (Failure(GradleException(OneOptionMessage, None)), fs, [])
  {
  }

  /**
   * A run with a resource path, where jextract produced the header class and
   * the loader could be written: the loader file holds the loader class and
   * the header file the class with the `load` call appended.
   */
  lemma RunInjectsLoader(config: TaskConfig, executable: string, jextract: ToolRun, fs: FileSystem<CompilationUnit>,
                         fs1: FileSystem<CompilationUnit>, fs2: FileSystem<CompilationUnit>)
    requires config.nativeLibraryLoading.resourcePath.Some? && !TooManyOptions(config)
    requires jextract(ExpectedArgs(config, executable).value, fs) == (Success(()), fs1)
    requires GenerateSpec(fs1, config.outputDirectory, config.targetPackage, FinalHeaderClassName(config),
                          GeneratorConfig(config.nativeLibraryLoading).enableCaching) == (Success(()), fs2)
    requires Rewrites(fs1, SourceFile(config.outputDirectory, config.targetPackage, FinalHeaderClassName(config)),
                      FinalHeaderClassName(config), FinalClassName(FinalHeaderClassName(config)), LoaderMethodName)
    ensures var header := FinalHeaderClassName(config);
      var headerFile := SourceFile(config.outputDirectory, config.targetPackage, header);
      var loaderFile := SourceFile(config.outputDirectory, config.targetPackage, FinalClassName(header));
      && RunSpec(config, Success(executable), jextract, fs) ==
           (Success(()),
            fs2[headerFile := RegularFile(InjectUnit(fs1[headerFile].data, header, FinalClassName(header),
                                                     LoaderMethodName).unit)],
            [RunTool(ExpectedArgs(config, executable).value), GenerateLoader, InjectLoader])
      && loaderFile != headerFile
      && loaderFile in fs2
      && fs2[loaderFile] == RegularFile(LoaderUnit(config.targetPackage, header,
                                                   GeneratorConfig(config.nativeLibraryLoading).enableCaching))
  {
    var header := FinalHeaderClassName(config);
    var caching := GeneratorConfig(config.nativeLibraryLoading).enableCaching;
    GenerateThenInject(fs1, config.outputDirectory, config.targetPackage, header, caching, fs2);
  }

  /** The task: its inputs, the tree of generated sources and the actions it has taken. */
  class JextractTask {
    const config: TaskConfig
    var fs: FileSystem<CompilationUnit>
    var steps: seq<Step>

    constructor(config: TaskConfig, fs: FileSystem<CompilationUnit>)
      ensures this.config == config && this.fs == fs && steps == []
    {
      this.config := config;
      this.fs := fs;
      steps := [];
    }

    /** `addLibraryArgs`: count the configured options, reject two, then append `-l <name>`. */
    method AddLibraryArgs(args: seq<string>) returns (r: Result<seq<string>, Exception>)
      ensures r.Failure? <==> TooManyOptions(config)
      ensures r.Failure? ==> r.error == GradleException(OneOptionMessage, None)
      ensures r.Success? ==> r.value == args + LibraryArgs(config.libraryName)
    {
      var configuredCount := 0;
      if config.libraryName.Some? {
        configuredCount := configuredCount + 1;
      }
      if config.nativeLibraryLoading.resourcePath.Some? {
        configuredCount := configuredCount + 1;
      }
      if configuredCount > 1 {
        return Failure(GradleException(OneOptionMessage, None));
      }
      var result := args;
      if config.libraryName.Some? {
        result := result + ["-l"];
        result := result + [config.libraryName.value];
      }
      r := Success(result);
    }

    /** `buildArgs`: append the arguments one by one. */
    method BuildArgs(executable: string) returns (r: Result<seq<string>, Exception>)
      ensures r == ExpectedArgs(config, executable)
    {
      var args: seq<string> := [];
      args := args + [executable];
      args := args + ["--output"];
      args := args + [Render(config.outputDirectory)];
      args := args + ["--target-package"];
      args := args + [config.targetPackage];
      args := args + ["--header-class-name"];
      args := args + [FinalHeaderClassName(config)];
      args := args + config.compilerArgs;
      assert args == [executable, "--output", Render(config.outputDirectory), "--target-package", config.targetPackage,
                      "--header-class-name", FinalHeaderClassName(config)] + config.compilerArgs;
      var withLibrary := AddLibraryArgs(args);
      if withLibrary.Failure? {
        return Failure(withLibrary.error);
      }
      args := withLibrary.value + [Render(config.headerFile)];
      r := Success(args);
    }

    /** `generateNativeLibraryLoader`: a generator for this task's header class, `generate` then `injectLoader`. */
    method GenerateNativeLibraryLoader() returns (r: Result<(), Exception>)
      requires config.nativeLibraryLoading.resourcePath.Some?
      modifies this
      ensures var header := FinalHeaderClassName(config);
        var enableCaching := GeneratorConfig(config.nativeLibraryLoading).enableCaching;
        var (generated, fs2) := GenerateSpec(old(fs), config.outputDirectory, config.targetPackage, header,
                                             enableCaching);
        && (generated.Failure? ==> r == generated && fs == fs2 && steps == old(steps) + [GenerateLoader])
        && (generated.Success? ==>
              && (r, fs) == InjectLoaderSpec(fs2, config.outputDirectory, config.targetPackage, header)
              && steps == old(steps) + [GenerateLoader, InjectLoader])
    {
      var headerClass := FinalHeaderClassName(config);
      var generator := new NativeLibraryLoaderGenerator(config.targetPackage, headerClass,
                                                        GeneratorConfig(config.nativeLibraryLoading),
                                                        config.outputDirectory, fs);
      steps := steps + [GenerateLoader];
      r := generator.Generate();
      if r.Failure? {
        fs := generator.fs;
        return;
      }
      steps := steps + [InjectLoader];
      r := generator.InjectLoader();
      fs := generator.fs;
    }

    /**
     * `run`: the executable comes from the tool service, the arguments are
     * built, jextract runs, and the loader is generated when a resource path
     * is configured.
     */
    method Run(executable: Result<string, Exception>, jextract: ToolRun) returns (r: Result<(), Exception>)
      modifies this
      ensures var (result, tree, taken) := RunSpec(config, executable, jextract, old(fs));
        r == result && fs == tree && steps == old(steps) + taken
    {
      if executable.Failure? {
        return Failure(executable.error);
      }
      var args := BuildArgs(executable.value);
      if args.Failure? {
        return Failure(args.error);
      }
      var ran := jextract(args.value, fs);
      steps := steps + [RunTool(args.value)];
      fs := ran.1;
      if ran.0.Failure? {
        return ran.0;
      }
      if config.nativeLibraryLoading.resourcePath.Some? {
        r := GenerateNativeLibraryLoader();
      } else {
        r := Success(());
      }
    }
  }
}
