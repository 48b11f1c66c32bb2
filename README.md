# gradle-jextract, modelled in Dafny

This project models the core of a Gradle plugin that generates Java bindings for
C headers with jextract:

- **Tool service.** A shared build service resolves the jextract tool. It
  classifies the host platform, builds the download URL from the tool version,
  and keeps one cache directory per version. That directory counts as complete
  only when a marker file is present. It is rebuilt by one download and
  extraction when the marker is missing. The executable is then looked up
  below it.
- **Task.** One `generate<Name>Bindings` task is registered per configured
  library. It works out the header class name, builds the jextract command line
  (`-l <name>` and a native resource path exclude each other) and runs the
  tool.
- **Loader generation.** When a resource path is configured, the task writes a
  `<Header>_NativeLibraryLoader` class. It then injects a static initializer
  that calls the loader's `load()` into the header class.
- **Generated loader at run time.** The generated loader class is modelled
  too. It detects the OS and architecture and expands the resource-path
  template into a platform library file name. It extracts the resource into a
  directory and loads it once per process, optionally reusing a copy named
  after the content's SHA-256 digest.

Modules, one per concern:

- `Wrappers`, `Exceptions`: `Option`, `Result` and the Java exceptions thrown.
- `Strings`: ASCII casing, `contains`, `lastIndexOf`, `String.replace`, and
  decimal rendering of naturals.
- `FileTree`: a file system as a map from paths to directories and files. It
  carries the `java.nio.file` and Gradle operations the plugin uses
  (`createDirectories`, `copy`, `writeString`, `createNewFile`, recursive
  delete, `sync`).
- `SupportedPlatform`, `UrlGenerator`, `ToolService`: the build service.
- `JavaSource`, `LoaderInjector`, `LoaderGenerator`: the parsed Java sources,
  the injector and the generator.
- `LoaderRuntime`: what the emitted loader code does when it runs.
- `JextractTask`, `JextractPlugin`: the task and the plugin's naming rules.

The source updates objects in place, so those objects are Dafny classes:

- `JextractToolService`;
- `NativeLibraryLoaderGenerator`;
- `NativeLibraryLoaderInjector`;
- `JextractTask`;
- the generated `NativeLibraryLoader`.

Each class's methods are proved against a specification function on values
(`ResolveSpec`, `GenerateSpec`, `InjectFile`, `RunSpec`, `LoadSpec`). The
lemmas state what the source promises about those functions. `LoadSpec` and
`NativeLibraryLoader.Load` follow the emitted `load()` as written. The
caching defect under "## Findings" is corrected separately, in
`LoadFromCorrected`, `LoadSpecCorrected` and `NativeLibraryLoader.LoadCorrected`,
and the lemmas marked "corrected" are about that version.

## Model

| member | source | states |
|---|---|---|
| SupportedPlatform.PlatformsClosed | src/main/java/de/timscho/jextract/internal/model/SupportedPlatform.java:11-16 | five platforms with pairwise distinct ids; each id starts with its OS type's prefix |
| SupportedPlatform.GetCurrentSupported | src/main/java/de/timscho/jextract/internal/model/SupportedPlatform.java:28-44 | ordered choice on the lower-cased OS name, first match wins: Windows iff it contains "win"; otherwise macOS iff it contains "mac"; otherwise Linux iff it contains "nux"; off Windows the ARM build iff the lower-cased arch contains "aarch64" or "arm64"; failure iff none of the three names matches, with the exact GradleException text |
| SupportedPlatform.GetCurrentSupportedIgnoresCase | src/main/java/de/timscho/jextract/internal/model/SupportedPlatform.java:29-30 | the classification does not depend on the letter case of either property |
| SupportedPlatform.ArchNeverRejected | src/main/java/de/timscho/jextract/internal/model/SupportedPlatform.java:33-43 | success depends on the OS name only; an unknown architecture falls back to the x64 build |
| SupportedPlatform.UnsupportedMessageNamesBoth | src/main/java/de/timscho/jextract/internal/model/SupportedPlatform.java:43 | the rejection message contains both the OS and the architecture |
| UrlGenerator.LeadingDigits | src/main/java/de/timscho/jextract/internal/download/JextractUrlGenerator.java:12 | the longest digit prefix (`\d+`, greedy): a digit-only prefix followed by a non-digit or the end |
| UrlGenerator.MatchVersion | src/main/java/de/timscho/jextract/internal/download/JextractUrlGenerator.java:12 | whatever the matcher accepts satisfies the grammar `major-jextract+build(-suffix)?` with its two groups |
| UrlGenerator.MatchVersionComplete | src/main/java/de/timscho/jextract/internal/download/JextractUrlGenerator.java:12 | every identifier that satisfies the grammar is accepted, with exactly the grammar's groups |
| UrlGenerator.MatchUnique | src/main/java/de/timscho/jextract/internal/download/JextractUrlGenerator.java:12 | the two groups of an identifier are unique |
| UrlGenerator.GenerateUrl | src/main/java/de/timscho/jextract/internal/download/JextractUrlGenerator.java:17-28 | a rejected version raises IllegalArgumentException with the pattern message; an accepted one gives a URL under the download base ending in `_bin.tar.gz` |
| UrlGenerator.GenerateUrlCorrect | src/main/java/de/timscho/jextract/internal/download/JextractUrlGenerator.java:13-27 | accepted iff the version matches the grammar; the URL is the template filled with the two groups, the raw version and the platform id |
| UrlGenerator.UrlContainsVersion | src/main/java/de/timscho/jextract/internal/download/JextractUrlGenerator.java:13-14 | the raw version appears in the URL |
| UrlGenerator.RejectionNamesVersion | src/main/java/de/timscho/jextract/internal/download/JextractUrlGenerator.java:20-21 | the rejection message contains the version |
| UrlGenerator.GenerateUrlOf | src/main/java/de/timscho/jextract/internal/download/JextractUrlGenerator.java:17-28 | `<digits>-jextract+<digits><suffix>` is accepted with exactly those two groups and gives the filled template |
| UrlGenerator.GenerateUrlLinuxExample | src/test/java/de/timscho/jextract/internal/download/JextractUrlGeneratorTest.java:15 | `25-jextract+2-4` on linux-x64 has groups `25` and `2` and gives `<base>25/2/openjdk-25-jextract+2-4_linux-x64_bin.tar.gz` |
| UrlGenerator.GenerateUrlMacExample | src/test/java/de/timscho/jextract/internal/download/JextractUrlGeneratorTest.java:16 | `25-jextract+2-4` on macos-aarch64 gives `<base>25/2/openjdk-25-jextract+2-4_macos-aarch64_bin.tar.gz` |
| UrlGenerator.GenerateUrlWindowsExample | src/test/java/de/timscho/jextract/internal/download/JextractUrlGeneratorTest.java:17 | `26-jextract+5-1` on windows-x64 gives `<base>26/5/openjdk-26-jextract+5-1_windows-x64_bin.tar.gz` |
| UrlGenerator.GenerateUrlRejectsExample | src/test/java/de/timscho/jextract/internal/download/JextractUrlGeneratorTest.java:27-35 | `invalid-version` is rejected |
| UrlGenerator.SuffixOptional | src/main/java/de/timscho/jextract/internal/download/JextractUrlGenerator.java:12 | the `-suffix` part is optional: `<digits>-jextract+<digits>` is accepted |
| FileTree.CreateDirectories | src/main/java/de/timscho/jextract/internal/download/JextractToolService.java:105 | fails iff some prefix of the path is a regular file; on success every prefix is a directory, existing entries are kept and only prefixes are added |
| FileTree.CreateDirectoriesIdempotent | src/main/java/de/timscho/jextract/internal/download/JextractToolService.java:105 | creating the same directories again changes nothing |
| FileTree.DeleteTree | src/main/java/de/timscho/jextract/internal/download/JextractToolService.java:102-104 | exactly the entries below the directory are removed; all others are kept unchanged |
| FileTree.Sync | src/main/java/de/timscho/jextract/internal/download/JextractToolService.java:131-134 | afterwards the target holds exactly the archive's entries; everything outside the target is unchanged |
| FileTree.CreateNewFile | src/main/java/de/timscho/jextract/internal/download/JextractToolService.java:110 | the marker exists afterwards; an existing entry is kept; the only possible addition is an empty file at that path |
| FileTree.WriteFile | src/main/java/de/timscho/jextract/internal/generation/NativeLibraryLoaderGenerator.java:373 | `Files.copy` with REPLACE_EXISTING: the path holds the data; fails iff the parent is missing or the path is a non-empty directory |
| FileTree.WriteString | src/main/java/de/timscho/jextract/internal/generation/NativeLibraryLoaderGenerator.java:104 | the path holds the data; fails iff the parent is missing or the path is a directory |
| ToolService.FolderName | src/main/java/de/timscho/jextract/internal/download/JextractToolService.java:49 | same length; characters in `[a-zA-Z0-9.-]` are kept; every other character becomes `_` |
| ToolService.FolderNameIdempotent | src/main/java/de/timscho/jextract/internal/download/JextractToolService.java:49 | a folder name is its own folder name |
| ToolService.FolderNameIdentity | src/main/java/de/timscho/jextract/internal/download/JextractToolService.java:49 | a version is used verbatim iff it consists only of kept characters and `_` |
| ToolService.FolderNameDefault | src/main/java/de/timscho/jextract/internal/download/JextractToolService.java:27 | the default version `25-jextract+2-4` is cached in `25-jextract_2-4` |
| ToolService.ResolveHit | src/main/java/de/timscho/jextract/internal/download/JextractToolService.java:89-92 | a directory with its marker is returned with no request and no change |
| ToolService.RebuildSuccessIsCached | src/main/java/de/timscho/jextract/internal/download/JextractToolService.java:100-110 | a successful rebuild leaves directory and marker after exactly one request |
| ToolService.ResolveSuccessIsCached | src/main/java/de/timscho/jextract/internal/download/JextractToolService.java:83-117 | a returned directory is the version's directory and is complete; at most one request was made |
| ToolService.ResolveTwice | src/main/java/de/timscho/jextract/internal/download/JextractToolService.java:83-117 | after a success the next resolution is a pure cache hit, so the tool is downloaded once |
| ToolService.RebuildExact | src/main/java/de/timscho/jextract/internal/download/JextractToolService.java:100-113 | after a good archive the version directory holds exactly the archive entries plus the marker, whatever it held before; outside it only the created ancestors are added |
| ToolService.RebuildFailureNotCached | src/main/java/de/timscho/jextract/internal/download/JextractToolService.java:100-113 | a failed rebuild leaves no marker; the error is a GradleException naming the URL and wrapping the cause |
| ToolService.DownloadFailedNamesUrl | src/main/java/de/timscho/jextract/internal/download/JextractToolService.java:112 | the wrapping message contains the URL |
| ToolService.ExtractFailureKeepsTree | src/main/java/de/timscho/jextract/internal/download/JextractToolService.java:119-138 | in the model's all-or-nothing extraction, a missing response, a bad status or a corrupt archive leaves the tree as it was (Gradle's entry-by-entry copy can leave partial entries; see Left out) |
| ToolService.RebuildFailureTree | src/main/java/de/timscho/jextract/internal/download/JextractToolService.java:100-113 | with extraction all-or-nothing and the delete infallible, after a failed rebuild the tree is the cleaned one, or the cleaned one with the version directory recreated (see Left out) |
| ToolService.MarkerAbsentAfterCleaning | src/main/java/de/timscho/jextract/internal/download/JextractToolService.java:100-105 | deleting the version directory (or finding none, in a well-formed tree) leaves no marker, and recreating the directory adds none |
| ToolService.ResolveFailureNotCached | src/main/java/de/timscho/jextract/internal/download/JextractToolService.java:83-117 | after any failure the entry is incomplete and no marker was created |
| ToolService.ResolveRejectsEarly | src/main/java/de/timscho/jextract/internal/download/JextractToolService.java:94-96 | on a cache miss, an unsupported host or a malformed version fails before any deletion or request, with the tree unchanged; the error is getCurrentSupported's own GradleException, or, on a supported host, the IllegalArgumentException naming the version, and neither is wrapped |
| ToolService.BinaryUnderToolDir | src/main/java/de/timscho/jextract/internal/download/JextractToolService.java:57-78 | both searched locations lie below the tool directory and end with the binary's name |
| ToolService.JextractToolService.constructor | src/main/java/de/timscho/jextract/internal/download/JextractToolService.java:140-145 | parameters stored; nothing fetched; no temporary files |
| ToolService.JextractToolService.EffectiveVersion | src/main/java/de/timscho/jextract/internal/download/JextractToolService.java:48 | the configured version, else the default |
| ToolService.JextractToolService.DownloadAndExtract | src/main/java/de/timscho/jextract/internal/download/JextractToolService.java:119-138 | outcome and tree follow `Extract` (no response, non-200 status, corrupt archive, or sync); the URL is recorded as fetched; the temporary file is deleted on every path |
| ToolService.JextractToolService.ResolveToolDir | src/main/java/de/timscho/jextract/internal/download/JextractToolService.java:83-117 | result, tree and requests equal `ResolveSpec`, the reference the lemmas above are about |
| ToolService.JextractToolService.FindBinary | src/main/java/de/timscho/jextract/internal/download/JextractToolService.java:57-80 | the direct `bin/<binary>` wins; otherwise some sub-directory's `bin/<binary>`; fails iff neither exists, with the not-found message |
| ToolService.JextractToolService.GetExecutable | src/main/java/de/timscho/jextract/internal/download/JextractToolService.java:47-81 | resolution as `ResolveSpec` with the folder name of the effective version, whose failure is returned; then an unsupported platform fails with `getCurrentSupported`'s error; otherwise the search of `FindBinary` in the resolved directory for the platform's binary name: the direct `bin/<binary>` wins, else a sub-directory's, failure iff neither exists, with the not-found message |
| JavaSource.FindClass | src/main/java/de/timscho/jextract/internal/generation/NativeLibraryLoaderInjector.java:73 | the first top-level class with the name, or none iff no class has that name |
| JavaSource.FindClassByNames | src/main/java/de/timscho/jextract/internal/generation/NativeLibraryLoaderInjector.java:73 | the lookup depends only on the class names |
| LoaderInjector.IsAlreadyInjected | src/main/java/de/timscho/jextract/internal/generation/NativeLibraryLoaderInjector.java:33-41 | true iff some static initializer's body contains `Loader.load()` |
| LoaderInjector.LoaderInitBlockCalls | src/main/java/de/timscho/jextract/internal/generation/NativeLibraryLoaderInjector.java:44-61 | the inserted block contains the very call the check looks for |
| LoaderInjector.InjectUnit | src/main/java/de/timscho/jextract/internal/generation/NativeLibraryLoaderInjector.java:68-88 | class missing iff no class has the name; already injected iff the class exists and makes the call |
| LoaderInjector.InjectAppendsOneBlock | src/main/java/de/timscho/jextract/internal/generation/NativeLibraryLoaderInjector.java:83-85 | only that class changes: it keeps its members and gains one static initializer, which makes the call; package and other classes are kept |
| LoaderInjector.InjectIdempotent | src/main/java/de/timscho/jextract/internal/generation/NativeLibraryLoaderInjector.java:78-81 | injecting an injected unit finds the call and does nothing |
| LoaderInjector.InjectFileRewrites | src/main/java/de/timscho/jextract/internal/generation/NativeLibraryLoaderInjector.java:83-86 | a rewrite replaces the target's unit by the injected one and touches no other file |
| LoaderInjector.InjectFileIdempotent | src/main/java/de/timscho/jextract/internal/generation/NativeLibraryLoaderInjector.java:68-88 | a second `inject` writes nothing and changes nothing |
| LoaderInjector.InjectFileNoOp | src/main/java/de/timscho/jextract/internal/generation/NativeLibraryLoaderInjector.java:73-81 | a missing class (only a warning) or an injected class leaves every file as it was |
| LoaderInjector.NativeLibraryLoaderInjector.constructor | src/main/java/de/timscho/jextract/internal/generation/NativeLibraryLoaderInjector.java:25-31 | configuration stored, nothing written |
| LoaderInjector.NativeLibraryLoaderInjector.Inject | src/main/java/de/timscho/jextract/internal/generation/NativeLibraryLoaderInjector.java:68-88 | outcome and tree equal `InjectFile`; the target is recorded as written iff it was rewritten |
| LoaderRuntime.DetectOsName | src/main/java/de/timscho/jextract/internal/generation/NativeLibraryLoaderGenerator.java:219-247 | first match wins on the lower-cased name: "windows" iff it contains "win"; otherwise "macos" if it contains mac or darwin; otherwise "linux" if it contains nux; success iff one of them matches; otherwise UnsupportedOperationException with the name |
| LoaderRuntime.DetectOsArch | src/main/java/de/timscho/jextract/internal/generation/NativeLibraryLoaderGenerator.java:249-276 | first match wins on the lower-cased arch: "amd64" iff amd64 or x86_64; otherwise "aarch64" exactly for aarch64 or arm64; otherwise "x86" exactly for x86; failure iff none matches, with the exact message |
| LoaderRuntime.DarwinContainsWin | src/main/java/de/timscho/jextract/internal/generation/NativeLibraryLoaderGenerator.java:226-242 | every name containing "darwin" contains "win" |
| LoaderRuntime.DetectOsNameAgrees | src/main/java/de/timscho/jextract/internal/model/SupportedPlatform.java:33-43 | the loader accepts exactly the OS names the plugin accepts, and names the same OS type |
| LoaderRuntime.DetectOsArchAgrees | src/main/java/de/timscho/jextract/internal/model/SupportedPlatform.java:31 | off Windows the loader reports aarch64 only where the plugin chose the ARM build; where the plugin chose ARM, the loader reports aarch64 or amd64 (amd64 and x86_64 are checked first) |
| LoaderRuntime.LoaderRejectsWhatPluginAccepts | src/main/java/de/timscho/jextract/internal/generation/NativeLibraryLoaderGenerator.java:249-276 | `ppc64le` on Linux: the plugin picks linux-x64 but the loader throws |
| LoaderRuntime.GetLibraryFileName | src/main/java/de/timscho/jextract/internal/generation/NativeLibraryLoaderGenerator.java:279-314 | the directory part is kept; the file part gets the platform's prefix and extension |
| LoaderRuntime.SplitAtLastSlash | src/main/java/de/timscho/jextract/internal/generation/NativeLibraryLoaderGenerator.java:288-289 | splitting at the last `/` gives back a directory part and a slash-free name |
| LoaderRuntime.FilePartHasNoSlash | src/main/java/de/timscho/jextract/internal/generation/NativeLibraryLoaderGenerator.java:288-289 | the file part has no `/`, and the path is the directory part followed by the file part |
| LoaderRuntime.ExpandResourcePath | src/main/java/de/timscho/jextract/internal/generation/NativeLibraryLoaderGenerator.java:193-209 | succeeds iff both detections succeed; the OS error comes first; the result has a non-empty file part ending in the platform's extension |
| LoaderRuntime.LibraryNameShape | src/main/java/de/timscho/jextract/internal/generation/NativeLibraryLoaderGenerator.java:279-314 | a library file name is non-empty and ends with the platform extension |
| LoaderRuntime.ExpandPlaceholders | src/main/java/de/timscho/jextract/internal/generation/NativeLibraryLoaderGenerator.java:203-204 | each placeholder is replaced where it stands; the rest is copied (no brace outside the placeholders) |
| LoaderRuntime.NoOsNameAroundArch | src/main/java/de/timscho/jextract/internal/generation/NativeLibraryLoaderGenerator.java:203-204 | brace-free text around `{os.arch}` holds no `{os.name}`, so replacing the OS placeholder leaves it alone |
| LoaderRuntime.ExpandTemplate | src/main/java/de/timscho/jextract/internal/generation/NativeLibraryLoaderGenerator.java:193-209 | `a{os.name}b{os.arch}c/name` (c ending in `/`) expands to `a<os>b<arch>c/<prefix>name<ext>` |
| LoaderRuntime.ExpandWindowsExample | src/main/java/de/timscho/jextract/extension/NativeLibraryLoadingConfig.java:17-22 | the documented windows-amd64 expansion `native/windows-amd64/mylib.dll` |
| LoaderRuntime.ExpandLinuxExample | src/main/java/de/timscho/jextract/extension/NativeLibraryLoadingConfig.java:17-21 | the documented `native/linux-amd64/libmylib.so` |
| LoaderRuntime.ExpandMacExample | src/main/java/de/timscho/jextract/extension/NativeLibraryLoadingConfig.java:17-23 | the documented `native/macos-aarch64/libmylib.dylib` |
| LoaderRuntime.DetectLinux | src/main/java/de/timscho/jextract/internal/generation/NativeLibraryLoaderGenerator.java:219-247 | "Linux" is detected as linux |
| LoaderRuntime.HexString | src/main/java/de/timscho/jextract/internal/generation/NativeLibraryLoaderGenerator.java:430-432 | two lower-case hex digits per digest byte |
| LoaderRuntime.ParseHexRoundTrip | src/main/java/de/timscho/jextract/internal/generation/NativeLibraryLoaderGenerator.java:430-432 | the hex text reads back to the digest |
| LoaderRuntime.HexStringInjective | src/main/java/de/timscho/jextract/internal/generation/NativeLibraryLoaderGenerator.java:430-432 | different digests give different cache names |
| LoaderRuntime.ComputeHash | src/main/java/de/timscho/jextract/internal/generation/NativeLibraryLoaderGenerator.java:413-445 | the loop builds the hex text of the digest |
| LoaderRuntime.DigestNameLength | src/main/java/de/timscho/jextract/internal/generation/NativeLibraryLoaderGenerator.java:413-445 | a 32-byte SHA-256 digest gives 64 characters |
| LoaderRuntime.CachedLibrary | src/main/java/de/timscho/jextract/internal/generation/NativeLibraryLoaderGenerator.java:380-411 | none iff the resource is missing; otherwise `<dir>/<file>.<hex digest>` |
| LoaderRuntime.CopyResource | src/main/java/de/timscho/jextract/internal/generation/NativeLibraryLoaderGenerator.java:344-377 | a missing resource is an IOException; otherwise the resource's bytes replace `<dir>/<file>` and that path is returned |
| LoaderRuntime.LoadFromOutcome | src/main/java/de/timscho/jextract/internal/generation/NativeLibraryLoaderGenerator.java:141-190 | as written: success iff the loaded flag ends set; one existing library is handed to System.load on success and none on failure |
| LoaderRuntime.LoadFromCorrectedOutcome | src/main/java/de/timscho/jextract/internal/generation/NativeLibraryLoaderGenerator.java:141-190 | corrected: success iff the loaded flag ends set; one existing library is handed to System.load on success and none on failure |
| LoaderRuntime.LoadOnce | src/main/java/de/timscho/jextract/internal/generation/NativeLibraryLoaderGenerator.java:119 | as written: a loaded process returns at once; success iff the flag ends set; after a success the next call is a no-op |
| LoaderRuntime.LoadOutcome | src/main/java/de/timscho/jextract/internal/generation/NativeLibraryLoaderGenerator.java:111-190 | as written: a first successful `load()` loads one existing file; a failed one loads nothing and leaves the flag clear |
| LoaderRuntime.LoadOnceCorrected | src/main/java/de/timscho/jextract/internal/generation/NativeLibraryLoaderGenerator.java:119 | `LoadOnce` for the corrected `load()` |
| LoaderRuntime.LoadOutcomeCorrected | src/main/java/de/timscho/jextract/internal/generation/NativeLibraryLoaderGenerator.java:111-190 | `LoadOutcome` for the corrected `load()` |
| LoaderRuntime.LoadedOneAppend | src/main/java/de/timscho/jextract/internal/generation/NativeLibraryLoaderGenerator.java:181-190 | appending a file that exists to the loaded list, with the flag set, is one successful load |
| LoaderRuntime.CacheHitSkipsExtraction | src/main/java/de/timscho/jextract/internal/generation/NativeLibraryLoaderGenerator.java:141-171 | with caching on and the hashed copy present, the hashed copy is loaded and only the extraction directory is created |
| LoaderRuntime.HashedNameDiffers | src/main/java/de/timscho/jextract/internal/generation/NativeLibraryLoaderGenerator.java:344-411 | the hashed name is never the extraction target nor one of its directories |
| LoaderRuntime.LoadFromNeverWritesHashed | src/main/java/de/timscho/jextract/internal/generation/NativeLibraryLoaderGenerator.java:173-190 | once the resource path is known, an absent hashed copy stays absent |
| LoaderRuntime.AncestryKept | src/main/java/de/timscho/jextract/internal/generation/NativeLibraryLoaderGenerator.java:340 | the created directories survive the later copy into them |
| LoaderRuntime.CacheNeverHitsAsWritten | src/main/java/de/timscho/jextract/internal/generation/NativeLibraryLoaderGenerator.java:141-190 | as written, a fresh process after a successful cached load misses the cache again and extracts `<dir>/<file>` anew |
| LoaderRuntime.LoadFromCorrectedWithoutCaching | src/main/java/de/timscho/jextract/internal/generation/NativeLibraryLoaderGenerator.java:173-190 | without caching, the corrected load is the original |
| LoaderRuntime.CorrectedCacheHits | src/main/java/de/timscho/jextract/extension/NativeLibraryLoadingConfig.java:43-47 | corrected: after a first cached load, a fresh process loads the hashed copy and changes no file |
| LoaderRuntime.LoadKeepsHashedCopy | src/main/java/de/timscho/jextract/extension/NativeLibraryLoadingConfig.java:43-47 | corrected, with caching on: a successful `load()` loads the hashed copy and leaves it on disk |
| LoaderRuntime.CorrectedKeepsHashedCopy | src/main/java/de/timscho/jextract/internal/generation/NativeLibraryLoaderGenerator.java:173-190 | corrected, with caching on and the resource present: a successful load leaves the hashed copy on disk and loads it |
| LoaderRuntime.NativeLibraryLoader.constructor | src/main/java/de/timscho/jextract/internal/generation/NativeLibraryLoaderGenerator.java:84-86 | a fresh process: the `loaded` flag is clear and nothing is loaded |
| LoaderRuntime.NativeLibraryLoader.GetExtractionDirectory | src/main/java/de/timscho/jextract/internal/generation/NativeLibraryLoaderGenerator.java:316-342 | the configured directory, else `<tmpdir>/jextract-natives`, created with its parents, or the creation error |
| LoaderRuntime.NativeLibraryLoader.ExtractLibrary | src/main/java/de/timscho/jextract/internal/generation/NativeLibraryLoaderGenerator.java:344-377 | result and tree equal `CopyResource` |
| LoaderRuntime.NativeLibraryLoader.GetCachedLibrary | src/main/java/de/timscho/jextract/internal/generation/NativeLibraryLoaderGenerator.java:380-411 | equals `CachedLibrary`; the name is the file name, a dot and the digest |
| LoaderRuntime.NativeLibraryLoader.Load | src/main/java/de/timscho/jextract/internal/generation/NativeLibraryLoaderGenerator.java:111-190 | as written: outcome and state equal `LoadSpec`, so `LoadOnce`, `LoadOutcome`, `CacheHitSkipsExtraction` and the cache miss of `CacheNeverHitsAsWritten` hold of it |
| LoaderRuntime.NativeLibraryLoader.LoadCorrected | src/main/java/de/timscho/jextract/internal/generation/NativeLibraryLoaderGenerator.java:141-190 | corrected: on a cache miss with caching on, the resource is written under the hashed name; outcome and state equal `LoadSpecCorrected` |
| LoaderGenerator.FinalClassName | src/main/java/de/timscho/jextract/internal/generation/NativeLibraryLoaderGenerator.java:48-50 | the header class name followed by `_NativeLibraryLoader` |
| LoaderGenerator.FinalClassNameDistinct | src/main/java/de/timscho/jextract/internal/generation/NativeLibraryLoaderGenerator.java:48-50 | different headers get different loaders; a loader never has its header's name |
| LoaderGenerator.SplitOn | src/main/java/de/timscho/jextract/internal/generation/NativeLibraryLoaderGenerator.java:449 | at least one piece, none containing the separator |
| LoaderGenerator.SplitJoin | src/main/java/de/timscho/jextract/internal/generation/NativeLibraryLoaderGenerator.java:449 | splitting undoes joining for separator-free pieces |
| LoaderGenerator.DropTrailingEmpty | src/main/java/de/timscho/jextract/internal/generation/NativeLibraryLoaderGenerator.java:449 | a prefix of the pieces; only empty pieces are dropped, all at the end |
| LoaderGenerator.PackagePartsOfJoin | src/main/java/de/timscho/jextract/internal/generation/NativeLibraryLoaderGenerator.java:449 | a dotted name of non-empty parts splits into exactly those parts |
| LoaderGenerator.ResolveAllAppends | src/main/java/de/timscho/jextract/internal/generation/NativeLibraryLoaderGenerator.java:450-453 | resolving non-empty parts in turn appends them as segments |
| LoaderGenerator.LoaderMembersShape | src/main/java/de/timscho/jextract/internal/generation/NativeLibraryLoaderGenerator.java:109-217 | caching methods are present iff caching is enabled; `load` is the only public method; no member is declared twice; the caching members come after the core ones |
| LoaderGenerator.CachingMembersNotCore | src/main/java/de/timscho/jextract/internal/generation/NativeLibraryLoaderGenerator.java:109-217 | `getCachedLibrary` and `computeHash` are not among the members added without caching |
| LoaderGenerator.CorePublicIsLoad | src/main/java/de/timscho/jextract/internal/generation/NativeLibraryLoaderGenerator.java:109-217 | among the members added without caching, `load` is the only public method |
| LoaderGenerator.CoreMembersDistinct | src/main/java/de/timscho/jextract/internal/generation/NativeLibraryLoaderGenerator.java:109-217 | no member added without caching is declared twice |
| LoaderGenerator.CachingMembersPrivate | src/main/java/de/timscho/jextract/internal/generation/NativeLibraryLoaderGenerator.java:109-217 | the two caching members are private methods and differ |
| LoaderGenerator.GenerateWritesLoader | src/main/java/de/timscho/jextract/internal/generation/NativeLibraryLoaderGenerator.java:71-107 | a successful `generate` writes the loader unit to `<package dir>/<Loader>.java`; other files are kept; only package directories are added |
| LoaderGenerator.GenerateFails | src/main/java/de/timscho/jextract/internal/generation/NativeLibraryLoaderGenerator.java:100-104 | `generate` fails iff a package directory is blocked by a file or the loader path is a directory |
| LoaderGenerator.InjectLoaderNeedsHeader | src/main/java/de/timscho/jextract/internal/generation/NativeLibraryLoaderGenerator.java:52-56 | without the header file, IllegalStateException naming the path |
| LoaderGenerator.InjectLoaderExisting | src/main/java/de/timscho/jextract/internal/generation/NativeLibraryLoaderGenerator.java:52-66 | with the header present, `injectLoader` is the injector's `inject` with `<Loader>.load` |
| LoaderGenerator.GenerateLeavesDirectories | src/main/java/de/timscho/jextract/internal/generation/NativeLibraryLoaderGenerator.java:448-456 | after `generate` the package directories exist, so creating them again changes nothing |
| LoaderGenerator.GenerateThenInject | src/main/java/de/timscho/jextract/internal/generation/NativeLibraryLoaderGenerator.java:52-107 | `generate` then `injectLoader`: the loader file holds the loader class, the header file holds the injected unit, and the two files differ |
| LoaderGenerator.LoaderFileExample | src/test/java/de/timscho/jextract/internal/generation/NativeLibraryLoaderGeneratorTest.java:30-36 | package `com.example`, header `MyLib`: the loader is `com/example/MyLib_NativeLibraryLoader.java` |
| LoaderGenerator.NativeLibraryLoaderGenerator.constructor | src/main/java/de/timscho/jextract/internal/generation/NativeLibraryLoaderGenerator.java:38-45 | configuration stored |
| LoaderGenerator.NativeLibraryLoaderGenerator.CreatePackageDirectory | src/main/java/de/timscho/jextract/internal/generation/NativeLibraryLoaderGenerator.java:448-456 | the package directory created with its parents, or the creation error with the tree unchanged |
| LoaderGenerator.NativeLibraryLoaderGenerator.Generate | src/main/java/de/timscho/jextract/internal/generation/NativeLibraryLoaderGenerator.java:71-107 | outcome and tree equal `GenerateSpec` |
| LoaderGenerator.NativeLibraryLoaderGenerator.InjectLoader | src/main/java/de/timscho/jextract/internal/generation/NativeLibraryLoaderGenerator.java:52-66 | outcome and tree equal `InjectLoaderSpec` |
| JextractTask.DotHReplaced | src/main/java/de/timscho/jextract/task/JextractTask.java:120 | `replace(".h", "_h")` keeps the length, turns exactly the dots that start a `.h` into underscores, leaves every other character, and leaves no `.h` |
| JextractTask.HeaderStem | src/main/java/de/timscho/jextract/task/JextractTask.java:120 | `<stem>.h` with a dot-free stem becomes `<stem>_h` |
| JextractTask.FinalHeaderClassName | src/main/java/de/timscho/jextract/task/JextractTask.java:116-121 | the configured name; else the header file name with exactly the dots that start a `.h` made `_`, every other character kept, and no `.h` left |
| JextractTask.NativeHeaderExample | src/functionalTest/java/de/timscho/jextract/JextractNativeLibraryLoadingTest.java:39-44 | the header `native.h` gives the class `native_h` |
| JextractTask.LibraryArgs | src/main/java/de/timscho/jextract/task/JextractTask.java:157-161 | empty iff no library name; otherwise `-l <name>` |
| JextractTask.ArgsLayout | src/main/java/de/timscho/jextract/task/JextractTask.java:124-162 | failure iff both library options are set, with the message; otherwise the executable, the three options with their values, the compiler arguments in order, `-l <name>` just before the header iff a name is set, and the header last |
| JextractTask.LibraryFlagIffName | src/main/java/de/timscho/jextract/task/JextractTask.java:142-162 | `-l` is passed iff a library name is configured (unless another argument is itself `-l`) |
| JextractTask.GeneratorConfig | src/main/java/de/timscho/jextract/task/JextractTask.java:167-173 | the resource path and extraction directory are handed on; caching is on iff set to true |
| JextractTask.RunOrder | src/main/java/de/timscho/jextract/task/JextractTask.java:96-114 | nothing runs before the arguments are built; the loader is generated only with a resource path and after jextract succeeded; injection follows a successful generation; a success took exactly these steps |
| JextractTask.RunRejectsBothOptions | src/main/java/de/timscho/jextract/task/JextractTask.java:152-155 | both options: failure before jextract runs, with nothing changed |
| JextractTask.RunInjectsLoader | src/main/java/de/timscho/jextract/task/JextractTask.java:96-114 | with a resource path and a produced header class, `run` leaves the loader file and the header class with the appended `load` call |
| JextractTask.JextractTask.constructor | src/main/java/de/timscho/jextract/task/JextractTask.java:96-100 | configuration stored, no steps taken |
| JextractTask.JextractTask.AddLibraryArgs | src/main/java/de/timscho/jextract/task/JextractTask.java:142-162 | failure iff both options, with the exact GradleException; else the arguments followed by `-l <name>` when a name is set |
| JextractTask.JextractTask.BuildArgs | src/main/java/de/timscho/jextract/task/JextractTask.java:123-140 | the command line equals `ExpectedArgs`, whose layout ArgsLayout states |
| JextractTask.JextractTask.GenerateNativeLibraryLoader | src/main/java/de/timscho/jextract/task/JextractTask.java:164-177 | `generate` as `GenerateSpec`, then on success `injectLoader` as `InjectLoaderSpec`, with the steps recorded |
| JextractTask.JextractTask.Run | src/main/java/de/timscho/jextract/task/JextractTask.java:95-114 | outcome, tree and steps equal `RunSpec` |
| JextractPlugin.Capitalize | src/main/java/de/timscho/jextract/JextractPlugin.java:92-95 | same length; the first character upper-cased; the rest unchanged |
| JextractPlugin.CapitalizeIdempotent | src/main/java/de/timscho/jextract/JextractPlugin.java:92-95 | capitalizing twice is capitalizing once |
| JextractPlugin.TaskName | src/main/java/de/timscho/jextract/JextractPlugin.java:42 | `generate`, the capitalized name, `Bindings` |
| JextractPlugin.TaskNameCollision | src/main/java/de/timscho/jextract/JextractPlugin.java:42 | two libraries get the same task iff their names agree after capitalizing the first letter |
| JextractPlugin.TaskNameExamples | src/test/java/de/timscho/jextract/JextractPluginTest.java:39-48 | `opengl` gives `generateOpenglBindings`; `configLib` gives `generateConfigLibBindings` |
| JextractPlugin.OutputDirectory | src/main/java/de/timscho/jextract/JextractPlugin.java:77-80 | `<buildDir>/generated/sources/jextract/<name>`: the build directory followed by exactly these four segments |
| JextractPlugin.OutputDirectoriesDistinct | src/main/java/de/timscho/jextract/JextractPlugin.java:77-80 | different libraries get different sibling output directories |
| JextractPlugin.ToolCacheDirectory | src/main/java/de/timscho/jextract/JextractPlugin.java:32-37 | `<gradleUserHome>/caches/jextract-tool` |
| JextractPlugin.ToolVersion | src/main/java/de/timscho/jextract/JextractPlugin.java:25 | the configured version, else the default |
| JextractPlugin.ToolDirectoryUnderCache | src/main/java/de/timscho/jextract/JextractPlugin.java:32-37 | every version's tool directory lies directly in the cache |
| JextractPlugin.DefaultToolDirectory | src/main/java/de/timscho/jextract/JextractPlugin.java:25 | with no version set: `<gradleUserHome>/caches/jextract-tool/25-jextract_2-4` |
| JextractPlugin.NativePackageDirectory | src/main/java/de/timscho/jextract/internal/generation/NativeLibraryLoaderGenerator.java:448-456 | `com.example.native_lib` is the directory `com/example/native_lib` |
| JextractPlugin.NativeLoadingLayoutExample | src/functionalTest/java/de/timscho/jextract/JextractNativeLibraryLoadingTest.java:39-61 | for `native.h` and `com.example.native_lib`, the loader is written to `com/example/native_lib/native_h_NativeLibraryLoader.java` in `build/generated/sources/jextract/nativeLib` |

## Left out

- Network, archive format and process execution are oracles:
  - HTTP is a `respond` function from URL to response;
  - gzip/tar decoding gives either entries or "corrupt";
  - running jextract is a `ToolRun` function from the command line and the source tree to an outcome and a new tree.
- The exception text for a corrupt archive is a fixed placeholder. Gradle's message is not part of this model.
- A failure of `createTempFile` is not modelled. The temporary archive is only tracked as a name that is removed again.
- Parsing and printing Java are not modelled. JavaParser is not part of this model: sources are held as parsed units, and an initializer is held as its printed text.
- `getClassByName` finds only classes. The model does not tell interfaces and records apart from classes.
- The generated loader's body is not modelled as Java text. The `load()` logic it encodes is modelled by `LoaderRuntime`, and the emitted member list by `LoaderMembers`. The configured resource path and extraction directory that the generator bakes into the emitted class are not carried in the written unit, so nothing ties `JextractTask.GeneratorConfig` to the `LoadingConfig` that `LoaderRuntime` runs with.
- `synchronized` on the service and on `load()` is not modelled. The model is sequential.
- SHA-256 is a parameter. Streaming the resource in 8 KiB chunks and the "SHA-256 not available" branch are not modelled.
- System properties and the host's directory listing order are inputs:
  - `os.name`, `os.arch` and `java.io.tmpdir` are parameters;
  - the order `listFiles` returns sub-directories in is left open (any matching one may be found).
- Some effects are not modelled at all: `System.load` is recorded as the list of loaded paths, and logging is left out.
- The Gradle wiring itself is not modelled: extension objects, providers, property conventions, service registration, source-set registration and task dependencies. Only the values they compute are.
- ToolService.ExtractFailureKeepsTree: extraction is modelled as all-or-nothing. Gradle's `sync` copies the archive's entries one by one, so a truncated or corrupt archive can leave some entries in the version directory. The lemma does not capture that partial state.
- ToolService.RebuildFailureTree: rests on the same all-or-nothing extraction. It also takes the delete of an existing version directory to be infallible (`FileTree.DeleteTree` cannot fail), so a failing `getFs().delete` is not modelled.
- An `InterruptedException` from `HttpClient.send` is folded into the missing-response case. The model reports it as an `IOException` carrying the reason, wrapped in the same `GradleException` with the URL.
- Casing is ASCII only. Locale-dependent and non-ASCII `toLowerCase`/`toUpperCase` are not modelled.
- Output directory names: `OutputDirectory` treats the library name as one path segment, so a name containing `/` is not modelled.
- JextractPlugin.Capitalize: requires a non-empty name. Java throws StringIndexOutOfBoundsException for an empty one.
- ToolService.RebuildFailureNotCached: requires a well-formed tree and a non-empty directory path.
- ToolService.ResolveFailureNotCached: has the same requirements as RebuildFailureNotCached.
- LoaderRuntime.ExpandWindowsExample: states the documented expansions for hosts that are given as detection results, not as literal property strings.
- `libraryPath`: the error message also names it, but the code has no such option.

## Findings

| source | as written | input that shows it | evidently intended | confidence | as-written member | corrected member |
|---|---|---|---|---|---|---|
| src/main/java/de/timscho/jextract/internal/generation/NativeLibraryLoaderGenerator.java:141-190 | with caching on, `load()` looks for `<dir>/<file>.<sha256>` but extracts to `<dir>/<file>`, so the hashed copy is never written and the cache never hits | `enableCaching = true`, any resource, two successive processes: the second extracts again | extract to the hashed name, so a later process reuses it (`NativeLibraryLoadingConfig.java:43-47`) | not executed | LoaderRuntime.CacheNeverHitsAsWritten | LoaderRuntime.CorrectedCacheHits |

Another discrepancy concerns architectures. The plugin downloads the x64 tool for any non-ARM architecture, for example `ppc64le` on Linux, while the generated loader throws for that architecture. `LoaderRuntime.LoaderRejectsWhatPluginAccepts` states this. The two components serve different purposes, so this is recorded here rather than corrected.
