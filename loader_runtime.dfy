/**
 * What the generated `<Header>_NativeLibraryLoader` class does when it runs:
 * it classifies the host, expands the resource-path template into a
 * platform library name, extracts that resource into a directory and loads
 * it once per process, optionally reusing a copy named after the content's
 * SHA-256 digest.
 */
module LoaderRuntime {
  import opened Wrappers
  import opened Strings
  import opened Exceptions
  import opened SupportedPlatform
  import opened FileTree

  const UnsupportedOsPrefix: string := "Unsupported OS: "

  const UnsupportedArchPrefix: string := "Unsupported architecture: "

  /** The emitted `detectOsName`: first match wins on the lower-cased os.name. */
  function DetectOsName(osName: string): (r: Result<string, Exception>)
    ensures r == Success("windows") <==> Contains(Lower(osName), "win")
    ensures r.Success? <==>
      || Contains(Lower(osName), "win") || Contains(Lower(osName), "mac")
      || Contains(Lower(osName), "darwin") || Contains(Lower(osName), "nux")
    ensures r.Success? ==> r.value == "windows" || r.value == "macos" || r.value == "linux"
    ensures r == Success("macos") ==> Contains(Lower(osName), "mac") || Contains(Lower(osName), "darwin")
    ensures r == Success("linux") ==>
      !Contains(Lower(osName), "mac") && !Contains(Lower(osName), "darwin") && Contains(Lower(osName), "nux")
    ensures !Contains(Lower(osName), "win") && (Contains(Lower(osName), "mac") || Contains(Lower(osName), "darwin")) ==>
      r == Success("macos")
    ensures
      && !Contains(Lower(osName), "win") && !Contains(Lower(osName), "mac")
      && !Contains(Lower(osName), "darwin") && Contains(Lower(osName), "nux")
      ==> r == Success("linux")
    ensures r.Failure? ==> r.error == UnsupportedOperationException(UnsupportedOsPrefix + Lower(osName))
  {
    var os := Lower(osName);
    if Contains(os, "win") then Success("windows")
    else if Contains(os, "mac") || Contains(os, "darwin") then Success("macos")
    else if Contains(os, "nux") then Success("linux")
    else Failure(UnsupportedOperationException(UnsupportedOsPrefix + os))
  }

  /** The emitted `detectOsArch`: first match wins on the lower-cased os.arch. */
  function DetectOsArch(osArch: string): (r: Result<string, Exception>)
    ensures r == Success("amd64") <==> Contains(Lower(osArch), "amd64") || Contains(Lower(osArch), "x86_64")
    ensures r == Success("aarch64") ==> IsArmArch(Lower(osArch))
    ensures r == Success("x86") ==>
      && Contains(Lower(osArch), "x86") && !Contains(Lower(osArch), "x86_64")
      && !Contains(Lower(osArch), "amd64") && !IsArmArch(Lower(osArch))
    ensures !Contains(Lower(osArch), "amd64") && !Contains(Lower(osArch), "x86_64") && IsArmArch(Lower(osArch)) ==>
      r == Success("aarch64")
    ensures
      && !Contains(Lower(osArch), "amd64") && !Contains(Lower(osArch), "x86_64")
      && !IsArmArch(Lower(osArch)) && Contains(Lower(osArch), "x86")
      ==> r == Success("x86")
    ensures r.Failure? <==>
      && !Contains(Lower(osArch), "amd64") && !Contains(Lower(osArch), "x86_64")
      && !IsArmArch(Lower(osArch)) && !Contains(Lower(osArch), "x86")
    ensures r.Failure? ==> r.error == UnsupportedOperationException(UnsupportedArchPrefix + Lower(osArch))
  {
    var arch := Lower(osArch);
    if Contains(arch, "amd64") || Contains(arch, "x86_64") then Success("amd64")
    else if Contains(arch, "aarch64") || Contains(arch, "arm64") then Success("aarch64")
    else if Contains(arch, "x86") then Success("x86")
    else Failure(UnsupportedOperationException(UnsupportedArchPrefix + arch))
  }

  /** Every string containing "darwin" contains "win". */
  lemma DarwinContainsWin(s: string)
    requires Contains(s, "darwin")
    ensures Contains(s, "win")
  {
    var i := ContainsWitness(s, "darwin");
    assert s[i + 3..i + 6] == s[i..i + 6][3..6];
    ContainsAt(s, "win", i + 3);
  }

  function TypeName(t: PlatformType): string {
    match t
    case Windows => "windows"
    case MacOs => "macos"
    case Linux => "linux"
  }

  /**
   * The generated loader and the plugin classify every OS name the same way:
   * the "darwin" test can never decide, since a darwin name has already
   * matched "win".
   */
  lemma DetectOsNameAgrees(osName: string, osArch: string)
    ensures DetectOsName(osName).Success? <==> GetCurrentSupported(osName, osArch).Success?
    ensures GetCurrentSupported(osName, osArch).Success? ==>
      DetectOsName(osName).value == TypeName(GetCurrentSupported(osName, osArch).value.Type())
  {
    if Contains(Lower(osName), "darwin") {
      DarwinContainsWin(Lower(osName));
    }
  }

  /** Where the loader reports an ARM build, the plugin downloads the ARM tool. */
  lemma DetectOsArchAgrees(osName: string, osArch: string)
    requires GetCurrentSupported(osName, osArch).Success?
    requires GetCurrentSupported(osName, osArch).value.Type() != Windows
    ensures DetectOsArch(osArch) == Success("aarch64") ==> GetCurrentSupported(osName, osArch).value.IsArm()
    ensures GetCurrentSupported(osName, osArch).value.IsArm() ==>
      DetectOsArch(osArch) == Success("aarch64") || DetectOsArch(osArch) == Success("amd64")
  {
  }

  /**
   * An architecture the plugin accepts (it falls back to x64) can still be
   * one the generated loader rejects.
   */
  lemma LoaderRejectsWhatPluginAccepts(osArch: string)
    requires osArch == "ppc64le"
    ensures GetCurrentSupported("Linux", osArch) == Success(LinuxX64)
    ensures DetectOsArch(osArch).Failure?
  {
    LowerPpc();
    PpcNotX86();
    PpcNotArm();
    DetectLinux();
  }

  lemma LowerPpc()
    ensures Lower("ppc64le") == "ppc64le"
  {
  }

  /** "ppc64le" holds none of the x86 names the loader looks for. */
  lemma PpcNotX86()
    ensures !Contains("ppc64le", "amd64") && !Contains("ppc64le", "x86_64") && !Contains("ppc64le", "x86")
  {
    NotContainsByChar("ppc64le", "amd64", 1);
    NotContainsByChar("ppc64le", "x86_64", 0);
    NotContainsByChar("ppc64le", "x86", 0);
  }

  /** "ppc64le" holds none of the ARM names the loader looks for. */
  lemma PpcNotArm()
    ensures !Contains("ppc64le", "aarch64") && !Contains("ppc64le", "arm64")
  {
    NotContainsByChar("ppc64le", "aarch64", 2);
    NotContainsByChar("ppc64le", "arm64", 1);
  }

  /** The part of a resource path up to and including its last `/`. */
  function DirPart(p: string): string {
    p[..LastIndexOf(p, '/') + 1]
  }

  /** The part after the last `/`: `substring(lastIndexOf('/') + 1)`. */
  function FilePart(p: string): string {
    p[LastIndexOf(p, '/') + 1..]
  }

  /** A directory part and a slash-free name split back into themselves. */
  lemma SplitAtLastSlash(d: string, f: string)
    requires d == [] || d[|d| - 1] == '/'
    requires '/' !in f
    ensures DirPart(d + f) == d && FilePart(d + f) == f
  {
    LastIndexOfAppend(d, f, '/');
    assert LastIndexOf(d, '/') == |d| - 1;
    assert (d + f)[..|d|] == d;
  }

  function LibPrefix(os: string): string {
    if os == "windows" then "" else "lib"
  }

  function LibSuffix(os: string): string {
    if os == "windows" then ".dll" else if os == "macos" then ".dylib" else ".so"
  }

  /**
   * The emitted `getLibraryFileName`: the directory part is kept and the
   * file name gets the platform's prefix and extension.
   */
  function GetLibraryFileName(basePath: string, osName: string): (r: string)
    ensures DirPart(r) == DirPart(basePath)
    ensures FilePart(r) == LibPrefix(osName) + FilePart(basePath) + LibSuffix(osName)
  {
    var fileName := FilePart(basePath);
    var dirPath := DirPart(basePath);
    FilePartHasNoSlash(basePath);
    LibNameHasNoSlash(osName, fileName);
    SplitAtLastSlash(dirPath, LibPrefix(osName) + fileName + LibSuffix(osName));
    dirPath + (LibPrefix(osName) + fileName + LibSuffix(osName))
  }

  lemma LibNameHasNoSlash(osName: string, fileName: string)
    requires '/' !in fileName
    ensures '/' !in LibPrefix(osName) + fileName + LibSuffix(osName)
  {
  }

  lemma FilePartHasNoSlash(p: string)
    ensures '/' !in FilePart(p)
    ensures p == DirPart(p) + FilePart(p)
    ensures DirPart(p) == [] || DirPart(p)[|DirPart(p)| - 1] == '/'
  {
    var k := LastIndexOf(p, '/') + 1;
    forall j | 0 <= j < |p| - k ensures FilePart(p)[j] != '/' {
      assert FilePart(p)[j] == p[k + j];
    }
  }

  const OsNamePlaceholder: string := "{os.name}"

  const OsArchPlaceholder: string := "{os.arch}"

  /**
   * The emitted `expandResourcePath`: both placeholders are replaced (the OS
   * name first), then the platform's library file name is formed.  Host
   * detection fails before anything else happens, the OS first.
   */
  function ExpandResourcePath(template: string, osName: string, osArch: string): (r: Result<string, Exception>)
    ensures r.Success? <==> DetectOsName(osName).Success? && DetectOsArch(osArch).Success?
    ensures DetectOsName(osName).Failure? ==> r == Failure(DetectOsName(osName).error)
    ensures DetectOsName(osName).Success? && DetectOsArch(osArch).Failure? ==> r == Failure(DetectOsArch(osArch).error)
    ensures r.Success? ==>
      && |FilePart(r.value)| > 0
      && EndsWith(r.value, LibSuffix(DetectOsName(osName).value))
  {
    match DetectOsName(osName)
    case Failure(e) => Failure(e)
    case Success(os) =>
      match DetectOsArch(osArch)
      case Failure(e) => Failure(e)
      case Success(arch) =>
        var path := ReplaceAll(ReplaceAll(template, OsNamePlaceholder, os), OsArchPlaceholder, arch);
        LibraryNameShape(path, os);
        Success(GetLibraryFileName(path, os))
  }

  /** A library file name is never empty and ends with the platform's extension. */
  lemma LibraryNameShape(path: string, os: string)
    ensures |FilePart(GetLibraryFileName(path, os))| > 0
    ensures EndsWith(GetLibraryFileName(path, os), LibSuffix(os))
  {
    var r := GetLibraryFileName(path, os);
    var suffix := LibSuffix(os);
    assert |suffix| > 0;
    var front := DirPart(path) + (LibPrefix(os) + FilePart(path));
    assert r == front + suffix;
    assert r[|front|..] == suffix;
  }

  /** The OS placeholder is replaced where it stands, the rest is copied. */
  lemma ReplaceOsName(a: string, rest: string, os: string)
    requires '{' !in a && !Contains(rest, OsNamePlaceholder)
    ensures ReplaceAll(a + OsNamePlaceholder + rest, OsNamePlaceholder, os) == a + os + rest
  {
    assert a + OsNamePlaceholder + rest == a + (OsNamePlaceholder + rest);
    ReplaceSkip(a, OsNamePlaceholder + rest, OsNamePlaceholder, os);
    ReplaceFront(rest, OsNamePlaceholder, os);
    ReplaceAbsent(rest, OsNamePlaceholder, os);
  }

  /** An OS placeholder occurring at `i` puts a brace at `i` and an `n` four places on. */
  lemma OsNameOccurrence(s: string, i: nat)
    requires i + |OsNamePlaceholder| <= |s| && s[i..i + |OsNamePlaceholder|] == OsNamePlaceholder
    ensures s[i] == '{' && s[i + 4] == 'n'
  {
    assert s[i..i + |OsNamePlaceholder|][4] == s[i + 4];
  }

  /**
   * With no brace around it, the architecture placeholder is the only place
   * an OS placeholder could start, and the two differ at their fifth character.
   */
  lemma NoOsNameAroundArch(b: string, c: string)
    requires '{' !in b && '{' !in c
    ensures !Contains(b + OsArchPlaceholder + c, OsNamePlaceholder)
  {
    var rest := b + OsArchPlaceholder + c;
    forall i | 0 <= i < |rest| - 4
      ensures rest[i] != '{' || rest[i + 4] != 'n'
    {
      if i < |b| {
        assert rest[i] == b[i];
      } else if i == |b| {
        assert rest[i + 4] == OsArchPlaceholder[4];
      } else if i < |b| + |OsArchPlaceholder| {
        assert rest[i] == OsArchPlaceholder[i - |b|];
      } else {
        assert rest[i] == c[i - |b| - |OsArchPlaceholder|];
      }
    }
    if Contains(rest, OsNamePlaceholder) {
      var i := ContainsWitness(rest, OsNamePlaceholder);
      OsNameOccurrence(rest, i);
      assert false;
    }
  }

  /** The OS placeholder in front of the architecture placeholder is the only one replaced. */
  lemma ReplaceOsNameBeforeArch(a: string, b: string, c: string, os: string)
    requires '{' !in a && '{' !in b && '{' !in c
    ensures ReplaceAll(a + OsNamePlaceholder + (b + OsArchPlaceholder + c), OsNamePlaceholder, os)
      == a + os + (b + OsArchPlaceholder + c)
  {
    NoOsNameAroundArch(b, c);
    ReplaceOsName(a, b + OsArchPlaceholder + c, os);
  }

  /** The architecture placeholder is replaced where it stands, the rest is copied. */
  lemma ReplaceOsArch(a: string, c: string, arch: string)
    requires '{' !in a && '{' !in c
    ensures ReplaceAll(a + OsArchPlaceholder + c, OsArchPlaceholder, arch) == a + arch + c
  {
    assert a + OsArchPlaceholder + c == a + (OsArchPlaceholder + c);
    ReplaceSkip(a, OsArchPlaceholder + c, OsArchPlaceholder, arch);
    ReplaceFront(c, OsArchPlaceholder, arch);
    NotContainsByChar(c, OsArchPlaceholder, 0);
    ReplaceAbsent(c, OsArchPlaceholder, arch);
  }

  /**
   * A template with one placeholder of each kind: the detected names take
   * their places and the rest is copied.
   */
  lemma ExpandPlaceholders(a: string, b: string, c: string, os: string, arch: string)
    requires '{' !in a && '{' !in b && '{' !in c && '{' !in os
    ensures ReplaceAll(ReplaceAll(a + OsNamePlaceholder + b + OsArchPlaceholder + c, OsNamePlaceholder, os),
                       OsArchPlaceholder, arch)
      == a + os + b + arch + c
  {
    var rest := b + OsArchPlaceholder + c;
    assert a + OsNamePlaceholder + b + OsArchPlaceholder + c == a + OsNamePlaceholder + rest;
    ReplaceOsNameBeforeArch(a, b, c, os);
    assert a + os + rest == (a + os + b) + OsArchPlaceholder + c;
    assert '{' !in a + os + b by {
      assert forall x :: x in a + os + b ==> x in a || x in os || x in b;
    }
    ReplaceOsArch(a + os + b, c, arch);
  }

  lemma DetectWindows()
    ensures DetectOsName("Windows 11") == Success("windows")
  {
    assert Lower("Windows 11") == "windows 11";
    assert "windows 11"[..3] == "win";
  }

  lemma DetectLinux()
    ensures Lower("Linux") == "linux"
    ensures !Contains("linux", "win") && !Contains("linux", "mac") && !Contains("linux", "darwin")
    ensures Contains("linux", "nux")
    ensures DetectOsName("Linux") == Success("linux")
  {
    assert Lower("Linux") == "linux";
    NotContainsByChar("linux", "win", 0);
    NotContainsByChar("linux", "mac", 0);
    NotContainsByChar("linux", "darwin", 0);
    assert "linux"[2..5] == "nux";
    ContainsAt("linux", "nux", 2);
  }

  lemma DetectMac()
    ensures DetectOsName("Mac OS X") == Success("macos")
  {
    assert Lower("Mac OS X") == "mac os x";
    NotContainsByChar("mac os x", "win", 0);
    assert "mac os x"[..3] == "mac";
  }

  lemma DetectAmd64()
    ensures DetectOsArch("amd64") == Success("amd64")
  {
    assert Lower("amd64") == "amd64";
    assert "amd64"[..5] == "amd64";
  }

  lemma DetectAarch64()
    ensures DetectOsArch("aarch64") == Success("aarch64")
  {
    LowerAarch64();
    AarchNotX86();
    assert "aarch64"[..7] == "aarch64";
  }

  lemma LowerAarch64()
    ensures Lower("aarch64") == "aarch64"
  {
  }

  /** "aarch64" holds neither x86-64 name. */
  lemma AarchNotX86()
    ensures !Contains("aarch64", "amd64") && !Contains("aarch64", "x86_64")
  {
    NotContainsByChar("aarch64", "amd64", 1);
    NotContainsByChar("aarch64", "x86_64", 0);
  }

  /** The template of the documentation's examples, `native/{os.name}-{os.arch}/mylib`, in pieces. */
  lemma DocumentedTemplatePieces(t: string)
    requires t == "native/{os.name}-{os.arch}/mylib"
    ensures t == "native/" + OsNamePlaceholder + "-" + OsArchPlaceholder + "/" + "mylib"
  {
  }

  /** The documented template expands to `native/<os>-<arch>/` and the platform's file name for `mylib`. */
  lemma ExpandDocumentedTemplate(t: string, osName: string, osArch: string, os: string, arch: string)
    requires t == "native/{os.name}-{os.arch}/mylib"
    requires DetectOsName(osName) == Success(os) && DetectOsArch(osArch) == Success(arch)
    ensures ExpandResourcePath(t, osName, osArch) ==
      Success("native/" + os + "-" + arch + "/" + (LibPrefix(os) + "mylib" + LibSuffix(os)))
  {
    DocumentedTemplatePieces(t);
    ExpandTemplate("native/", "-", "/", "mylib", osName, osArch, os, arch);
  }

  lemma WindowsExamplePath()
    ensures "native/" + "windows" + "-" + "amd64" + "/" + ("" + "mylib" + ".dll") == "native/windows-amd64/mylib.dll"
  {
  }

  /** The documented Windows x64 expansion. */
  lemma ExpandWindowsExample(t: string, osName: string, osArch: string)
    requires t == "native/{os.name}-{os.arch}/mylib"
    requires DetectOsName(osName) == Success("windows") && DetectOsArch(osArch) == Success("amd64")
    ensures ExpandResourcePath(t, osName, osArch) == Success("native/windows-amd64/mylib.dll")
  {
    ExpandDocumentedTemplate(t, osName, osArch, "windows", "amd64");
    WindowsExamplePath();
  }

  lemma LinuxExamplePath()
    ensures "native/" + "linux" + "-" + "amd64" + "/" + ("lib" + "mylib" + ".so") == "native/linux-amd64/libmylib.so"
  {
  }

  /** The documented Linux x64 expansion. */
  lemma ExpandLinuxExample(t: string, osName: string, osArch: string)
    requires t == "native/{os.name}-{os.arch}/mylib"
    requires DetectOsName(osName) == Success("linux") && DetectOsArch(osArch) == Success("amd64")
    ensures ExpandResourcePath(t, osName, osArch) == Success("native/linux-amd64/libmylib.so")
  {
    ExpandDocumentedTemplate(t, osName, osArch, "linux", "amd64");
    LinuxExamplePath();
  }

  lemma MacExamplePath()
    ensures "native/" + "macos" + "-" + "aarch64" + "/" + ("lib" + "mylib" + ".dylib") == "native/macos-aarch64/libmylib.dylib"
  {
  }

  /** The documented macOS ARM64 expansion. */
  lemma ExpandMacExample(t: string, osName: string, osArch: string)
    requires t == "native/{os.name}-{os.arch}/mylib"
    requires DetectOsName(osName) == Success("macos") && DetectOsArch(osArch) == Success("aarch64")
    ensures ExpandResourcePath(t, osName, osArch) == Success("native/macos-aarch64/libmylib.dylib")
  {
    ExpandDocumentedTemplate(t, osName, osArch, "macos", "aarch64");
    MacExamplePath();
  }

  /** With the host classified, the expansion is the two replacements and the file-name rule. */
  lemma ExpandResourcePathSteps(template: string, osName: string, osArch: string, os: string, arch: string)
    requires DetectOsName(osName) == Success(os) && DetectOsArch(osArch) == Success(arch)
    ensures ExpandResourcePath(template, osName, osArch) ==
      Success(GetLibraryFileName(ReplaceAll(ReplaceAll(template, OsNamePlaceholder, os), OsArchPlaceholder, arch), os))
  {
  }

  /**
   * A template `a{os.name}b{os.arch}c/name` (c ending in a slash): the
   * detected names take the placeholders' places, the directory part is kept
   * and the last segment becomes the platform's library file name.
   */
  lemma ExpandTemplate(a: string, b: string, c: string, name: string,
                       osName: string, osArch: string, os: string, arch: string)
    requires DetectOsName(osName) == Success(os) && DetectOsArch(osArch) == Success(arch)
    requires '{' !in a && '{' !in b && '{' !in c && '{' !in name
    requires |c| > 0 && c[|c| - 1] == '/' && '/' !in name
    ensures ExpandResourcePath(a + OsNamePlaceholder + b + OsArchPlaceholder + c + name, osName, osArch)
      == Success(a + os + b + arch + c + (LibPrefix(os) + name + LibSuffix(os)))
  {
    assert os == "windows" || os == "macos" || os == "linux";
    ExpandTemplateText(a, b, c, name, os, arch);
    ExpandResourcePathSteps(a + OsNamePlaceholder + b + OsArchPlaceholder + c + name, osName, osArch, os, arch);
  }

  lemma ExpandTemplateText(a: string, b: string, c: string, name: string, os: string, arch: string)
    requires '{' !in a && '{' !in b && '{' !in c && '{' !in name && '{' !in os
    requires |c| > 0 && c[|c| - 1] == '/' && '/' !in name
    ensures GetLibraryFileName(ReplaceAll(ReplaceAll(a + OsNamePlaceholder + b + OsArchPlaceholder + c + name,
                                                     OsNamePlaceholder, os), OsArchPlaceholder, arch), os)
      == a + os + b + arch + c + (LibPrefix(os) + name + LibSuffix(os))
  {
    var rest := c + name;
    assert '{' !in rest by {
      assert forall x :: x in rest ==> x in c || x in name;
    }
    assert a + OsNamePlaceholder + b + OsArchPlaceholder + c + name == a + OsNamePlaceholder + b + OsArchPlaceholder + rest;
    ExpandPlaceholders(a, b, rest, os, arch);
    var dir := a + os + b + arch + c;
    assert a + os + b + arch + rest == dir + name;
    SplitAtLastSlash(dir, name);
  }

  /** The emitted `getExtractionDirectory`, before it is created. */
  datatype LoadingConfig = LoadingConfig(resourcePath: string, extractionDir: Option<Path>, enableCaching: bool)

  /** The system properties the generated code reads. */
  datatype Host = Host(osName: string, osArch: string, tmpDir: Path)

  /** The configured absolute directory, else `<java.io.tmpdir>/jextract-natives`. */
  function ExtractionDirectory(config: LoadingConfig, tmpDir: Path): Path {
    match config.extractionDir
    case Some(dir) => dir
    case None => tmpDir + ["jextract-natives"]
  }

  predicate IsLowerHex(c: char) {
    ('0' <= c <= '9') || ('a' <= c <= 'f')
  }

  function HexDigit(n: int): (c: char)
    requires 0 <= n < 16
    ensures IsLowerHex(c)
  {
    if n < 10 then ('0' as int + n) as char else ('a' as int + n - 10) as char
  }

  function HexValue(c: char): (n: int)
    requires IsLowerHex(c)
    ensures 0 <= n < 16
  {
    if c <= '9' then c as int - '0' as int else c as int - 'a' as int + 10
  }

  /** `String.format("%02x", b)`: two lowercase digits of the unsigned value. */
  function HexByte(b: byte): string {
    [HexDigit(b as int / 16), HexDigit(b as int % 16)]
  }

  /** The hex text the emitted `computeHash` builds from a digest. */
  function HexString(bytes: Bytes): (r: string)
    ensures |r| == 2 * |bytes|
    ensures forall i :: 0 <= i < |r| ==> IsLowerHex(r[i])
  {
    if bytes == [] then [] else HexString(bytes[..|bytes| - 1]) + HexByte(bytes[|bytes| - 1])
  }

  /** Reading hex text back into bytes. */
  function ParseHex(s: string): (r: Bytes)
    requires |s| % 2 == 0
    requires forall i :: 0 <= i < |s| ==> IsLowerHex(s[i])
    ensures |r| == |s| / 2
  {
    if s == [] then []
    else ParseHex(s[..|s| - 2]) + [(16 * HexValue(s[|s| - 2]) + HexValue(s[|s| - 1])) as byte]
  }

  /** The hex text determines the digest: it is read back exactly. */
  lemma {:induction false} ParseHexRoundTrip(bytes: Bytes)
    ensures ParseHex(HexString(bytes)) == bytes
    decreases |bytes|
  {
    if bytes != [] {
      var init := bytes[..|bytes| - 1];
      var s := HexString(bytes);
      assert s == HexString(init) + HexByte(bytes[|bytes| - 1]);
      assert s[..|s| - 2] == HexString(init);
      ParseHexRoundTrip(init);
      assert bytes == init + [bytes[|bytes| - 1]];
    }
  }

  /** Different digests give different cache names. */
  lemma HexStringInjective(a: Bytes, b: Bytes)
    requires HexString(a) == HexString(b)
    ensures a == b
  {
    ParseHexRoundTrip(a);
    ParseHexRoundTrip(b);
  }

  /** The emitted `computeHash`, taking the SHA-256 function as a parameter. */
  method ComputeHash(data: Bytes, sha256: Bytes -> Bytes) returns (hex: string)
    ensures hex == HexString(sha256(data))
    ensures |hex| == 2 * |sha256(data)|
  {
    var hashBytes := sha256(data);
    hex := "";
    for i := 0 to |hashBytes|
      invariant hex == HexString(hashBytes[..i])
    {
      assert hashBytes[..i + 1][..i] == hashBytes[..i];
      hex := hex + HexByte(hashBytes[i]);
    }
    assert hashBytes[..|hashBytes|] == hashBytes;
  }

  /** A 32-byte SHA-256 digest gives a 64-character name component. */
  lemma DigestNameLength(digest: Bytes)
    requires |digest| == 32
    ensures |HexString(digest)| == 64
  {
  }

  /** The emitted `getCachedLibrary`: null without the resource, else `<file>.<hash>` in dir. */
  function CachedLibrary(resources: map<string, Bytes>, sha256: Bytes -> Bytes, resourcePath: string, dir: Path)
    : (r: Option<Path>)
    ensures r.Some? <==> resourcePath in resources
    ensures r.Some? ==> r.value == Resolve(dir, FilePart(resourcePath) + "." + HexString(sha256(resources[resourcePath])))
  {
    if resourcePath !in resources then None
    else Some(Resolve(dir, FilePart(resourcePath) + "." + HexString(sha256(resources[resourcePath]))))
  }

  function ResourceNotFound(resourcePath: string): Exception {
    IOException("Resource not found: " + resourcePath)
  }

  /**
   * The emitted `extractLibrary`: the resource copied over `<dir>/<file>`,
   * the path returned; a missing resource is an IOException.
   */
  function CopyResource(fs: Tree, resources: map<string, Bytes>, resourcePath: string, dir: Path)
    : (r: Result<(Path, Tree), Exception>)
    ensures resourcePath !in resources ==> r == Failure(ResourceNotFound(resourcePath))
    ensures r.Success? ==>
      && resourcePath in resources
      && r.value.0 == Resolve(dir, FilePart(resourcePath))
      && r.value.1 == fs[r.value.0 := RegularFile(resources[resourcePath])]
  {
    var target := Resolve(dir, FilePart(resourcePath));
    if resourcePath !in resources then Failure(ResourceNotFound(resourcePath))
    else match WriteFile(fs, target, resources[resourcePath])
      case Failure(e) => Failure(e)
      case Success(fs2) => Success((target, fs2))
  }

  /** The per-process state of the loader: the `loaded` flag, the files, and what System.load was given. */
  datatype LoadState = LoadState(loaded: bool, fs: Tree, libraries: seq<Path>)

  /** The emitted `load()` as a function of the state, as written. */
  function LoadSpec(config: LoadingConfig, host: Host, resources: map<string, Bytes>, sha256: Bytes -> Bytes,
                    s: LoadState): (Result<(), Exception>, LoadState)
  {
    if s.loaded then (Success(()), s)
    else match ExpandResourcePath(config.resourcePath, host.osName, host.osArch)
      case Failure(e) => (Failure(e), s)
      case Success(resourcePath) =>
        LoadFrom(config.enableCaching, resources, sha256, resourcePath, ExtractionDirectory(config, host.tmpDir), s)
  }

  /** `load()` with the caching correction of LoadFromCorrected in place of LoadFrom. */
  function LoadSpecCorrected(config: LoadingConfig, host: Host, resources: map<string, Bytes>, sha256: Bytes -> Bytes,
                             s: LoadState): (Result<(), Exception>, LoadState)
  {
    if s.loaded then (Success(()), s)
    else match ExpandResourcePath(config.resourcePath, host.osName, host.osArch)
      case Failure(e) => (Failure(e), s)
      case Success(resourcePath) =>
        LoadFromCorrected(config.enableCaching, resources, sha256, resourcePath, ExtractionDirectory(config, host.tmpDir), s)
  }

  /** The rest of `load()` once the resource path is known: create the directory, reuse or extract, load. */
  function LoadFrom(caching: bool, resources: map<string, Bytes>, sha256: Bytes -> Bytes,
                    resourcePath: string, dir: Path, s: LoadState): (Result<(), Exception>, LoadState)
  {
    match CreateDirectories(s.fs, dir)
    case Failure(e) => (Failure(e), s)
    case Success(fs1) =>
      var cached := if caching then CachedLibrary(resources, sha256, resourcePath, dir) else None;
      if cached.Some? && cached.value in fs1 then (Success(()), LoadState(true, fs1, s.libraries + [cached.value]))
      else match CopyResource(fs1, resources, resourcePath, dir)
        case Failure(e) => (Failure(e), s.(fs := fs1))
        case Success((target, fs2)) => (Success(()), LoadState(true, fs2, s.libraries + [target]))
  }

  /**
   * A first call's effect: it succeeds exactly when the flag ends up set,
   * and then it has handed exactly one more existing file to System.load;
   * a failure loads nothing.
   */
  predicate LoadedOne(s: LoadState, r: Result<(), Exception>, s2: LoadState) {
    && (r.Success? <==> s2.loaded)
    && (r.Success? ==> |s2.libraries| == |s.libraries| + 1 && s2.libraries[..|s.libraries|] == s.libraries
                       && s2.libraries[|s.libraries|] in s2.fs)
    && (r.Failure? ==> s2.libraries == s.libraries)
  }

  /** A library appended to the list after it was written or found is a loaded one. */
  lemma LoadedOneAppend(s: LoadState, fs2: Tree, lib: Path)
    requires lib in fs2
    ensures LoadedOne(s, Success(()), LoadState(true, fs2, s.libraries + [lib]))
  {
    assert (s.libraries + [lib])[..|s.libraries|] == s.libraries;
  }

  lemma LoadFromOutcome(caching: bool, resources: map<string, Bytes>, sha256: Bytes -> Bytes,
                        resourcePath: string, dir: Path, s: LoadState)
    requires !s.loaded
    ensures var o := LoadFrom(caching, resources, sha256, resourcePath, dir, s); LoadedOne(s, o.0, o.1)
  {
    var created := CreateDirectories(s.fs, dir);
    if created.Success? {
      var fs1 := created.value;
      var cached := if caching then CachedLibrary(resources, sha256, resourcePath, dir) else None;
      if cached.Some? && cached.value in fs1 {
        LoadedOneAppend(s, fs1, cached.value);
      } else {
        var copied := CopyResource(fs1, resources, resourcePath, dir);
        if copied.Success? {
          LoadedOneAppend(s, copied.value.1, copied.value.0);
        }
      }
    }
  }

  lemma LoadFromCorrectedOutcome(caching: bool, resources: map<string, Bytes>, sha256: Bytes -> Bytes,
                                 resourcePath: string, dir: Path, s: LoadState)
    requires !s.loaded
    ensures var o := LoadFromCorrected(caching, resources, sha256, resourcePath, dir, s); LoadedOne(s, o.0, o.1)
  {
    var created := CreateDirectories(s.fs, dir);
    if created.Success? {
      var fs1 := created.value;
      var cached := if caching then CachedLibrary(resources, sha256, resourcePath, dir) else None;
      if cached.Some? && cached.value in fs1 {
        LoadedOneAppend(s, fs1, cached.value);
      } else if cached.Some? {
        var written := WriteFile(fs1, cached.value, resources[resourcePath]);
        if written.Success? {
          LoadedOneAppend(s, written.value, cached.value);
        }
      } else {
        var copied := CopyResource(fs1, resources, resourcePath, dir);
        if copied.Success? {
          LoadedOneAppend(s, copied.value.1, copied.value.0);
        }
      }
    }
  }

  /**
   * A process loads its library once: a loaded state is left alone, and the
   * state after a successful call is a loaded one.
   */
  lemma LoadOnce(config: LoadingConfig, host: Host, resources: map<string, Bytes>, sha256: Bytes -> Bytes,
                 s: LoadState)
    ensures s.loaded ==> LoadSpec(config, host, resources, sha256, s) == (Success(()), s)
    ensures var o := LoadSpec(config, host, resources, sha256, s);
      && (o.0.Success? <==> o.1.loaded)
      && (o.0.Success? ==> LoadSpec(config, host, resources, sha256, o.1) == (Success(()), o.1))
  {
    if !s.loaded {
      var e := ExpandResourcePath(config.resourcePath, host.osName, host.osArch);
      if e.Success? {
        LoadFromOutcome(config.enableCaching, resources, sha256, e.value, ExtractionDirectory(config, host.tmpDir), s);
      }
    }
  }

  /**
   * A first call hands exactly one existing file to System.load when it
   * succeeds, and only then sets the flag; a failed call loads nothing and
   * leaves the flag clear.
   */
  lemma LoadOutcome(config: LoadingConfig, host: Host, resources: map<string, Bytes>, sha256: Bytes -> Bytes,
                    s: LoadState)
    requires !s.loaded
    ensures var o := LoadSpec(config, host, resources, sha256, s); LoadedOne(s, o.0, o.1)
  {
    var e := ExpandResourcePath(config.resourcePath, host.osName, host.osArch);
    if e.Success? {
      LoadFromOutcome(config.enableCaching, resources, sha256, e.value, ExtractionDirectory(config, host.tmpDir), s);
    }
  }

  /** LoadOnce, for the corrected `load()`. */
  lemma LoadOnceCorrected(config: LoadingConfig, host: Host, resources: map<string, Bytes>, sha256: Bytes -> Bytes,
                          s: LoadState)
    ensures s.loaded ==> LoadSpecCorrected(config, host, resources, sha256, s) == (Success(()), s)
    ensures var o := LoadSpecCorrected(config, host, resources, sha256, s);
      && (o.0.Success? <==> o.1.loaded)
      && (o.0.Success? ==> LoadSpecCorrected(config, host, resources, sha256, o.1) == (Success(()), o.1))
  {
    if !s.loaded {
      var e := ExpandResourcePath(config.resourcePath, host.osName, host.osArch);
      if e.Success? {
        LoadFromCorrectedOutcome(config.enableCaching, resources, sha256, e.value, ExtractionDirectory(config, host.tmpDir), s);
      }
    }
  }

  /** LoadOutcome, for the corrected `load()`. */
  lemma LoadOutcomeCorrected(config: LoadingConfig, host: Host, resources: map<string, Bytes>, sha256: Bytes -> Bytes,
                             s: LoadState)
    requires !s.loaded
    ensures var o := LoadSpecCorrected(config, host, resources, sha256, s); LoadedOne(s, o.0, o.1)
  {
    var e := ExpandResourcePath(config.resourcePath, host.osName, host.osArch);
    if e.Success? {
      LoadFromCorrectedOutcome(config.enableCaching, resources, sha256, e.value, ExtractionDirectory(config, host.tmpDir), s);
    }
  }

  /**
   * With caching on and the hashed copy present, nothing is extracted: the
   * only change to the files is the creation of the extraction directory.
   */
  lemma CacheHitSkipsExtraction(config: LoadingConfig, host: Host, resources: map<string, Bytes>,
                                sha256: Bytes -> Bytes, s: LoadState, resourcePath: string)
    requires !s.loaded && config.enableCaching
    requires ExpandResourcePath(config.resourcePath, host.osName, host.osArch) == Success(resourcePath)
    requires CreateDirectories(s.fs, ExtractionDirectory(config, host.tmpDir)).Success?
    requires CachedLibrary(resources, sha256, resourcePath, ExtractionDirectory(config, host.tmpDir)).Some?
    requires CachedLibrary(resources, sha256, resourcePath, ExtractionDirectory(config, host.tmpDir)).value in s.fs
    ensures LoadSpec(config, host, resources, sha256, s) ==
      (Success(()), LoadState(true, CreateDirectories(s.fs, ExtractionDirectory(config, host.tmpDir)).value,
                              s.libraries + [CachedLibrary(resources, sha256, resourcePath,
                                                           ExtractionDirectory(config, host.tmpDir)).value]))
  {
  }

  /** The hashed name `<dir>/<file>.<hash>` is never the extraction target `<dir>/<file>`. */
  lemma HashedNameDiffers(resources: map<string, Bytes>, sha256: Bytes -> Bytes, resourcePath: string, dir: Path)
    requires resourcePath in resources && |FilePart(resourcePath)| > 0
    ensures CachedLibrary(resources, sha256, resourcePath, dir).value != Resolve(dir, FilePart(resourcePath))
    ensures CachedLibrary(resources, sha256, resourcePath, dir).value !in Ancestry(dir)
  {
    var name := FilePart(resourcePath);
    var hashed := CachedLibrary(resources, sha256, resourcePath, dir).value;
    var hashedName := name + "." + HexString(sha256(resources[resourcePath]));
    assert hashed == dir + [hashedName];
    assert hashed !in Ancestry(dir) by {
      assert forall q :: q in Ancestry(dir) ==> |q| <= |dir|;
    }
    assert hashed[|dir|] == hashedName != name == Resolve(dir, name)[|dir|];
  }

  /** Below the resource path: a hashed copy that was absent stays absent. */
  lemma LoadFromNeverWritesHashed(caching: bool, resources: map<string, Bytes>, sha256: Bytes -> Bytes,
                                  resourcePath: string, dir: Path, s: LoadState)
    requires |FilePart(resourcePath)| > 0
    requires CachedLibrary(resources, sha256, resourcePath, dir).Some?
    requires CachedLibrary(resources, sha256, resourcePath, dir).value !in s.fs
    ensures CachedLibrary(resources, sha256, resourcePath, dir).value
      !in LoadFrom(caching, resources, sha256, resourcePath, dir, s).1.fs
  {
    HashedNameDiffers(resources, sha256, resourcePath, dir);
  }

  /**
   * With caching on, a successful `load()` (corrected) loads the hashed copy
   * `<dir>/<file>.<hash>` and leaves it on disk for the next process.
   */
  lemma LoadKeepsHashedCopy(config: LoadingConfig, host: Host, resources: map<string, Bytes>,
                            sha256: Bytes -> Bytes, s: LoadState, resourcePath: string)
    requires !s.loaded && config.enableCaching
    requires ExpandResourcePath(config.resourcePath, host.osName, host.osArch) == Success(resourcePath)
    requires resourcePath in resources
    ensures var cached := CachedLibrary(resources, sha256, resourcePath, ExtractionDirectory(config, host.tmpDir)).value;
      var o := LoadSpecCorrected(config, host, resources, sha256, s);
      o.0.Success? ==> cached in o.1.fs && o.1.libraries == s.libraries + [cached]
  {
    CorrectedKeepsHashedCopy(resources, sha256, resourcePath, ExtractionDirectory(config, host.tmpDir), s);
  }

  lemma CorrectedKeepsHashedCopy(resources: map<string, Bytes>, sha256: Bytes -> Bytes, resourcePath: string,
                                 dir: Path, s: LoadState)
    requires resourcePath in resources
    ensures var cached := CachedLibrary(resources, sha256, resourcePath, dir).value;
      var o := LoadFromCorrected(true, resources, sha256, resourcePath, dir, s);
      o.0.Success? ==> cached in o.1.fs && o.1.libraries == s.libraries + [cached]
  {
    if LoadFromCorrected(true, resources, sha256, resourcePath, dir, s).0.Success? {
      var fs1 := CreateDirectories(s.fs, dir).value;
      var cached := CachedLibrary(resources, sha256, resourcePath, dir).value;
      if cached !in fs1 {
        var written := WriteFile(fs1, cached, resources[resourcePath]);
        assert written.Success?;
      }
    }
  }

  /** Every prefix of dir is a directory after `createDirectories`, and a write beside them keeps that. */
  lemma AncestryKept(fs: Tree, dir: Path, p: Path, data: Bytes)
    requires CreateDirectories(fs, dir).Success?
    requires |p| > |dir|
    ensures forall q :: q in Ancestry(dir) ==>
      q in CreateDirectories(fs, dir).value[p := RegularFile(data)] &&
      CreateDirectories(fs, dir).value[p := RegularFile(data)][q] == Directory
  {
    assert forall q :: q in Ancestry(dir) ==> |q| <= |dir|;
  }

  /**
   * As written, caching never takes effect: after a successful first load
   * with caching on, a fresh process (flag clear, same files) misses the
   * cache again and extracts and loads `<dir>/<file>` once more.
   */
  lemma CacheNeverHitsAsWritten(resources: map<string, Bytes>, sha256: Bytes -> Bytes,
                                resourcePath: string, dir: Path, s: LoadState)
    requires !s.loaded && |FilePart(resourcePath)| > 0
    requires CachedLibrary(resources, sha256, resourcePath, dir).Some?
    requires CachedLibrary(resources, sha256, resourcePath, dir).value !in s.fs
    requires LoadFrom(true, resources, sha256, resourcePath, dir, s).0.Success?
    ensures var s2 := LoadFrom(true, resources, sha256, resourcePath, dir, s).1;
      LoadFrom(true, resources, sha256, resourcePath, dir, LoadState(false, s2.fs, s2.libraries)) ==
        (Success(()), LoadState(true, s2.fs, s2.libraries + [Resolve(dir, FilePart(resourcePath))]))
  {
    var target := Resolve(dir, FilePart(resourcePath));
    var data := resources[resourcePath];
    var s2 := LoadFrom(true, resources, sha256, resourcePath, dir, s).1;
    LoadFromNeverWritesHashed(true, resources, sha256, resourcePath, dir, s);
    var fs1 := CreateDirectories(s.fs, dir).value;
    assert s2.fs == fs1[target := RegularFile(data)];
    AncestryKept(s.fs, dir, target, data);
    CreateDirectoriesExisting(s2.fs, dir);
    assert |target| > 1 ==> target[..|target| - 1] == dir;
    assert !HasChildren(s2.fs, target) || !s2.fs[target].Directory?;
    assert s2.fs[target := RegularFile(data)] == s2.fs;
  }

  /**
   * `load()` below the resource path as the caching documentation intends:
   * with caching on, the resource is extracted under its hashed name, so that
   * a later process finds it there.
   */
  function LoadFromCorrected(caching: bool, resources: map<string, Bytes>, sha256: Bytes -> Bytes,
                             resourcePath: string, dir: Path, s: LoadState): (Result<(), Exception>, LoadState)
  {
    match CreateDirectories(s.fs, dir)
    case Failure(e) => (Failure(e), s)
    case Success(fs1) =>
      var cached := if caching then CachedLibrary(resources, sha256, resourcePath, dir) else None;
      if cached.Some? && cached.value in fs1 then (Success(()), LoadState(true, fs1, s.libraries + [cached.value]))
      else if cached.Some? then
        match WriteFile(fs1, cached.value, resources[resourcePath])
        case Failure(e) => (Failure(e), s.(fs := fs1))
        case Success(fs2) => (Success(()), LoadState(true, fs2, s.libraries + [cached.value]))
      else match CopyResource(fs1, resources, resourcePath, dir)
        case Failure(e) => (Failure(e), s.(fs := fs1))
        case Success((target, fs2)) => (Success(()), LoadState(true, fs2, s.libraries + [target]))
  }

  /** With caching off the correction changes nothing. */
  lemma LoadFromCorrectedWithoutCaching(resources: map<string, Bytes>, sha256: Bytes -> Bytes,
                                        resourcePath: string, dir: Path, s: LoadState)
    ensures LoadFromCorrected(false, resources, sha256, resourcePath, dir, s) ==
      LoadFrom(false, resources, sha256, resourcePath, dir, s)
  {
  }

  /**
   * Corrected, the library is extracted once and then reused: after a
   * successful first load with caching on, a fresh process loads the hashed
   * copy and leaves every file as it is.
   */
  lemma CorrectedCacheHits(resources: map<string, Bytes>, sha256: Bytes -> Bytes,
                           resourcePath: string, dir: Path, s: LoadState)
    requires !s.loaded && |FilePart(resourcePath)| > 0
    requires CachedLibrary(resources, sha256, resourcePath, dir).Some?
    requires LoadFromCorrected(true, resources, sha256, resourcePath, dir, s).0.Success?
    ensures var s2 := LoadFromCorrected(true, resources, sha256, resourcePath, dir, s).1;
      LoadFromCorrected(true, resources, sha256, resourcePath, dir, LoadState(false, s2.fs, s2.libraries)) ==
        (Success(()), LoadState(true, s2.fs,
                                s2.libraries + [CachedLibrary(resources, sha256, resourcePath, dir).value]))
  {
    var cached := CachedLibrary(resources, sha256, resourcePath, dir).value;
    var data := resources[resourcePath];
    var s2 := LoadFromCorrected(true, resources, sha256, resourcePath, dir, s).1;
    var fs1 := CreateDirectories(s.fs, dir).value;
    HashedNameDiffers(resources, sha256, resourcePath, dir);
    assert |cached| == |dir| + 1;
    if cached in fs1 {
      assert s2.fs == fs1;
      CreateDirectoriesExisting(fs1, dir);
    } else {
      assert s2.fs == fs1[cached := RegularFile(data)];
      AncestryKept(s.fs, dir, cached, data);
      CreateDirectoriesExisting(s2.fs, dir);
    }
  }

  /**
   * The loader's runtime state: its baked-in configuration, the host
   * properties, the class-path resources, the digest function, the
   * `loaded` flag, the file system and the libraries handed to System.load.
   */
  class NativeLibraryLoader {
    const config: LoadingConfig
    const host: Host
    const resources: map<string, Bytes>
    const sha256: Bytes -> Bytes
    var loaded: bool
    var fs: Tree
    var libraries: seq<Path>

    function State(): LoadState
      reads this
    {
      LoadState(loaded, fs, libraries)
    }

    /** A fresh process: the static flag starts out false. */
    constructor(config: LoadingConfig, host: Host, resources: map<string, Bytes>, sha256: Bytes -> Bytes, fs: Tree)
      ensures this.config == config && this.host == host && this.resources == resources && this.sha256 == sha256
      ensures State() == LoadState(false, fs, [])
    {
      this.config := config;
      this.host := host;
      this.resources := resources;
      this.sha256 := sha256;
      loaded := false;
      this.fs := fs;
      libraries := [];
    }

    /** The emitted `getExtractionDirectory`: the directory, created with its parents. */
    method GetExtractionDirectory() returns (r: Result<Path, Exception>)
      modifies this`fs
      ensures var created := CreateDirectories(old(fs), ExtractionDirectory(config, host.tmpDir));
        && (created.Failure? ==> r == Failure(created.error) && fs == old(fs))
        && (created.Success? ==> r == Success(ExtractionDirectory(config, host.tmpDir)) && fs == created.value)
    {
      var dir := ExtractionDirectory(config, host.tmpDir);
      var created := CreateDirectories(fs, dir);
      if created.Failure? {
        return Failure(created.error);
      }
      fs := created.value;
      r := Success(dir);
    }

    /** The emitted `extractLibrary`. */
    method ExtractLibrary(resourcePath: string, dir: Path) returns (r: Result<Path, Exception>)
      modifies this`fs
      ensures var copied := CopyResource(old(fs), resources, resourcePath, dir);
        && (copied.Failure? ==> r == Failure(copied.error) && fs == old(fs))
        && (copied.Success? ==> r == Success(copied.value.0) && fs == copied.value.1)
    {
      var fileName := FilePart(resourcePath);
      var target := Resolve(dir, fileName);
      if resourcePath !in resources {
        return Failure(ResourceNotFound(resourcePath));
      }
      var written := WriteFile(fs, target, resources[resourcePath]);
      if written.Failure? {
        return Failure(written.error);
      }
      fs := written.value;
      r := Success(target);
    }

    /** The emitted `getCachedLibrary`, hashing the resource with ComputeHash. */
    method GetCachedLibrary(resourcePath: string, dir: Path) returns (r: Option<Path>)
      ensures r == CachedLibrary(resources, sha256, resourcePath, dir)
      ensures r.Some? ==> |r.value| == |dir| + 1 && FilePart(resourcePath) + "." == r.value[|dir|][..|FilePart(resourcePath)| + 1]
    {
      if resourcePath !in resources {
        return None;
      }
      var hash := ComputeHash(resources[resourcePath], sha256);
      var fileName := FilePart(resourcePath);
      r := Some(Resolve(dir, fileName + "." + hash));
      assert (fileName + "." + hash)[..|fileName| + 1] == fileName + ".";
    }

    /** The emitted `load()`. */
    method Load() returns (r: Result<(), Exception>)
      modifies this
      ensures (r, State()) == LoadSpec(config, host, resources, sha256, old(State()))
    {
      if loaded {
        return Success(());
      }
      var resourcePath := ExpandResourcePath(config.resourcePath, host.osName, host.osArch);
      if resourcePath.Failure? {
        return Failure(resourcePath.error);
      }
      var dir := GetExtractionDirectory();
      if dir.Failure? {
        return Failure(dir.error);
      }
      if config.enableCaching {
        var cachedLib := GetCachedLibrary(resourcePath.value, dir.value);
        if cachedLib.Some? && cachedLib.value in fs {
          libraries := libraries + [cachedLib.value];
          loaded := true;
          return Success(());
        }
      }
      var extractedLib := ExtractLibrary(resourcePath.value, dir.value);
      if extractedLib.Failure? {
        return Failure(extractedLib.error);
      }
      libraries := libraries + [extractedLib.value];
      loaded := true;
      r := Success(());
    }

    /** `load()` as corrected under LoadFromCorrected: on a cache miss the resource is written under the hashed name. */
    method LoadCorrected() returns (r: Result<(), Exception>)
      modifies this
      ensures (r, State()) == LoadSpecCorrected(config, host, resources, sha256, old(State()))
    {
      if loaded {
        return Success(());
      }
      var resourcePath := ExpandResourcePath(config.resourcePath, host.osName, host.osArch);
      if resourcePath.Failure? {
        return Failure(resourcePath.error);
      }
      var dir := GetExtractionDirectory();
      if dir.Failure? {
        return Failure(dir.error);
      }
      if config.enableCaching {
        var cachedLib := GetCachedLibrary(resourcePath.value, dir.value);
        if cachedLib.Some? && cachedLib.value in fs {
          libraries := libraries + [cachedLib.value];
          loaded := true;
          return Success(());
        }
        if cachedLib.Some? {
          var written := WriteFile(fs, cachedLib.value, resources[resourcePath.value]);
          if written.Failure? {
            return Failure(written.error);
          }
          fs := written.value;
          libraries := libraries + [cachedLib.value];
          loaded := true;
          return Success(());
        }
      }
      var extractedLib := ExtractLibrary(resourcePath.value, dir.value);
      if extractedLib.Failure? {
        return Failure(extractedLib.error);
      }
      libraries := libraries + [extractedLib.value];
      loaded := true;
      r := Success(());
    }
  }
}
