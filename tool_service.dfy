/**
 * The shared build service that provides the jextract executable: a cache
 * directory per tool version, validated by a marker file, filled by one
 * download-and-extract of the release archive when the marker is missing.
 */
module ToolService {
  import opened Wrappers
  import opened Strings
  import opened Exceptions
  import opened SupportedPlatform
  import opened UrlGenerator
  import opened FileTree

  /** The tool version used when none is configured. */
  const DefaultVersion: string := "25-jextract+2-4"

  /** The marker file whose presence says a cache entry is complete. */
  const MarkerName: string := ".gradleJextractDownload"

  const HttpOk: nat := 200

  /** The characters the folder name keeps: `[a-zA-Z0-9.-]`. */
  predicate IsFolderChar(c: char) {
    ('a' <= c <= 'z') || ('A' <= c <= 'Z') || IsDigit(c) || c == '.' || c == '-'
  }

  /** `replaceAll("[^a-zA-Z0-9.-]", "_")`: the cache folder name of a version. */
  function FolderName(version: string): (r: string)
    ensures |r| == |version|
    ensures forall i :: 0 <= i < |r| ==> IsFolderChar(r[i]) || r[i] == '_'
    ensures forall i :: 0 <= i < |r| ==> IsFolderChar(version[i]) ==> r[i] == version[i]
    ensures forall i :: 0 <= i < |r| ==> !IsFolderChar(version[i]) ==> r[i] == '_'
  {
    if version == [] then [] else [FolderChar(version[0])] + FolderName(version[1..])
  }

  function FolderChar(c: char): (r: char)
    ensures IsFolderChar(r) || r == '_'
    ensures IsFolderChar(c) <==> r == c && c != '_'
  {
    if IsFolderChar(c) then c else '_'
  }

  /** FolderName is determined character by character. */
  lemma FolderNamePointwise(version: string, expected: string)
    requires |expected| == |version|
    requires forall i :: 0 <= i < |version| ==> expected[i] == FolderChar(version[i])
    ensures FolderName(version) == expected
  {
  }

  /** A folder name is its own folder name. */
  lemma FolderNameIdempotent(version: string)
    ensures FolderName(FolderName(version)) == FolderName(version)
  {
  }

  /** Exactly the versions made only of kept characters and underscores are used verbatim. */
  lemma FolderNameIdentity(version: string)
    ensures FolderName(version) == version <==>
      forall i :: 0 <= i < |version| ==> IsFolderChar(version[i]) || version[i] == '_'
  {
    var r := FolderName(version);
    if r == version {
      forall i | 0 <= i < |version| ensures IsFolderChar(version[i]) || version[i] == '_' {
        assert r[i] == version[i];
      }
    } else if forall i :: 0 <= i < |version| ==> IsFolderChar(version[i]) || version[i] == '_' {
      FolderNamePointwise(version, version);
    }
  }

  /** The default version's folder: only the `+` is replaced. */
  lemma FolderNameDefault(v: string)
    requires v == DefaultVersion
    ensures FolderName(v) == "25-jextract_2-4"
  {
    FolderNamePointwise(v, "25-jextract_2-4");
  }

  /** What the temporary archive holds after the download: a gzipped tar, or bytes that are not one. */
  datatype Archive = Corrupt | TarGz(entries: Entries)

  /** The HTTP exchange for a URL: no response at all, or a status code and the saved body. */
  datatype Response = NoResponse(reason: string) | Reply(status: nat, body: Archive)

  const StatusPrefix: string := "Download request failed with status code: "

  const CorruptArchiveMessage: string := "Could not expand the downloaded archive"

  const DownloadFailedPrefix: string := "Failed to download jextract from "

  function StatusFailure(status: nat): Exception {
    IOException(StatusPrefix + NatToString(status))
  }

  function CorruptArchive(): Exception {
    GradleException(CorruptArchiveMessage, None)
  }

  /** `downloadAndExtract` as a function of the response: the outcome and the new tree. */
  function Extract(fs: Tree, targetDir: Path, response: Response): (Result<(), Exception>, Tree) {
    match response
    case NoResponse(reason) => (Failure(IOException(reason)), fs)
    case Reply(status, body) =>
      if status != HttpOk then (Failure(StatusFailure(status)), fs)
      else match body
        case Corrupt => (Failure(CorruptArchive()), fs)
        case TarGz(entries) => (Success(()), Sync(fs, targetDir, entries))
  }

  function DownloadFailed(url: string, cause: Exception): Exception {
    GradleException(DownloadFailedPrefix + url, Some(cause))
  }

  function MarkerPath(versionDir: Path): Path {
    versionDir + [MarkerName]
  }

  /** A cache entry is usable when both its directory and its marker exist. */
  predicate IsCached(fs: Tree, versionDir: Path) {
    versionDir in fs && MarkerPath(versionDir) in fs
  }

  /** The outcome of `resolveToolDir`: the result, the new tree and the URLs requested. */
  datatype Resolution = Resolution(result: Result<Path, Exception>, fs: Tree, fetched: seq<string>)

  /**
   * The `try` block of `resolveToolDir`, once the URL is known: delete what is
   * there, create the directory, download and extract, write the marker.
   * Every exception is wrapped with the URL.
   */
  function Rebuild(fs: Tree, versionDir: Path, url: string, respond: string -> Response): Resolution {
    var cleaned := if versionDir in fs then DeleteTree(fs, versionDir) else fs;
    match CreateDirectories(cleaned, versionDir)
    case Failure(e) => Resolution(Failure(DownloadFailed(url, e)), cleaned, [])
    case Success(created) =>
      var (outcome, extracted) := Extract(created, versionDir, respond(url));
      if outcome.Failure? then Resolution(Failure(DownloadFailed(url, outcome.error)), extracted, [url])
      else Resolution(Success(versionDir), CreateNewFile(extracted, MarkerPath(versionDir)), [url])
  }

  /**
   * `resolveToolDir` as a function of the tree, the configuration, the host
   * properties and the network (`respond`).  The platform and the URL are
   * computed before anything is touched, and their errors are not wrapped.
   */
  function ResolveSpec(fs: Tree, cacheDir: Path, version: string, folderName: string,
                       osName: string, osArch: string, respond: string -> Response): Resolution
  {
    var versionDir := Resolve(cacheDir, folderName);
    if IsCached(fs, versionDir) then Resolution(Success(versionDir), fs, [])
    else match GetCurrentSupported(osName, osArch)
      case Failure(e) => Resolution(Failure(e), fs, [])
      case Success(platform) =>
        match GenerateUrl(version, platform)
        case Failure(e) => Resolution(Failure(e), fs, [])
        case Success(url) => Rebuild(fs, versionDir, url, respond)
  }

  /** A complete cache entry is returned without any request and without any change. */
  lemma ResolveHit(fs: Tree, cacheDir: Path, version: string, folderName: string,
                   osName: string, osArch: string, respond: string -> Response)
    requires IsCached(fs, Resolve(cacheDir, folderName))
    ensures ResolveSpec(fs, cacheDir, version, folderName, osName, osArch, respond)
      == Resolution(Success(Resolve(cacheDir, folderName)), fs, [])
  {
  }

  /** A successful rebuild leaves a complete cache entry after exactly one request. */
  lemma RebuildSuccessIsCached(fs: Tree, versionDir: Path, url: string, respond: string -> Response)
    requires |versionDir| > 0
    ensures var R := Rebuild(fs, versionDir, url, respond);
      R.result.Success? ==> R.result.value == versionDir && IsCached(R.fs, versionDir) && R.fetched == [url]
  {
    var cleaned := if versionDir in fs then DeleteTree(fs, versionDir) else fs;
    var c := CreateDirectories(cleaned, versionDir);
    if c.Success? {
      var extracted := Extract(c.value, versionDir, respond(url)).1;
      assert versionDir in c.value;
      assert !(Under(versionDir, versionDir) && versionDir != versionDir);
      assert versionDir in extracted;
    }
  }

  /** Whatever is returned is a complete cache entry, reached by at most one request. */
  lemma ResolveSuccessIsCached(fs: Tree, cacheDir: Path, version: string, folderName: string,
                               osName: string, osArch: string, respond: string -> Response)
    requires |cacheDir| > 0
    ensures var R := ResolveSpec(fs, cacheDir, version, folderName, osName, osArch, respond);
      R.result.Success? ==>
        R.result.value == Resolve(cacheDir, folderName) && IsCached(R.fs, R.result.value) && |R.fetched| <= 1
  {
    var versionDir := Resolve(cacheDir, folderName);
    if !IsCached(fs, versionDir) {
      var p := GetCurrentSupported(osName, osArch);
      if p.Success? && GenerateUrl(version, p.value).Success? {
        RebuildSuccessIsCached(fs, versionDir, GenerateUrl(version, p.value).value, respond);
      }
    }
  }

  /** The tool is downloaded at most once: the call after a successful one is a pure hit. */
  lemma ResolveTwice(fs: Tree, cacheDir: Path, version: string, folderName: string,
                     osName: string, osArch: string, respond: string -> Response, respond2: string -> Response)
    requires |cacheDir| > 0
    ensures var R := ResolveSpec(fs, cacheDir, version, folderName, osName, osArch, respond);
      R.result.Success? ==>
        ResolveSpec(R.fs, cacheDir, version, folderName, osName, osArch, respond2) == Resolution(R.result, R.fs, [])
  {
    ResolveSuccessIsCached(fs, cacheDir, version, folderName, osName, osArch, respond);
  }

  /**
   * Self-healing: when the archive arrives, the version directory ends up
   * holding exactly the archive's entries plus the marker, whatever partial
   * content it held before, and nothing outside it changes except the
   * directories created on the way to it.
   */
  lemma RebuildExact(fs: Tree, versionDir: Path, url: string, respond: string -> Response, entries: Entries)
    requires respond(url) == Reply(HttpOk, TarGz(entries))
    requires CreateDirectories(if versionDir in fs then DeleteTree(fs, versionDir) else fs, versionDir).Success?
    ensures var R := Rebuild(fs, versionDir, url, respond);
      && R.result == Success(versionDir)
      && R.fetched == [url]
      && (forall q :: Under(versionDir, q) && q != versionDir ==>
            (q in R.fs <==> q[|versionDir|..] in entries || q == MarkerPath(versionDir)))
      && (forall q :: q in fs && !Under(versionDir, q) ==> q in R.fs && R.fs[q] == fs[q])
      && (forall q :: q in R.fs && !Under(versionDir, q) && q !in fs ==> q in Ancestry(versionDir))
  {
    var marker := MarkerPath(versionDir);
    assert marker[..|versionDir|] == versionDir;
    assert marker[|versionDir|..] == [MarkerName];
    forall q | Under(versionDir, q) && q != versionDir && q[|versionDir|..] in entries
      ensures q == versionDir + q[|versionDir|..]
    {
      assert q == q[..|versionDir|] + q[|versionDir|..];
    }
  }

  /**
   * A failed rebuild never leaves a marker behind, so the next call tries
   * again; its exception is a GradleException naming the URL and wrapping the
   * cause.
   */
  lemma RebuildFailureNotCached(fs: Tree, versionDir: Path, url: string, respond: string -> Response)
    requires WellFormed(fs) && |versionDir| > 0
    ensures var R := Rebuild(fs, versionDir, url, respond);
      R.result.Failure? ==>
        && MarkerPath(versionDir) !in R.fs
        && R.result.error.GradleException? && R.result.error.cause.Some?
        && Contains(R.result.error.message, url)
  {
    MarkerAbsentAfterCleaning(fs, versionDir);
    RebuildFailureTree(fs, versionDir, url, respond);
    var cleaned := if versionDir in fs then DeleteTree(fs, versionDir) else fs;
    var created := CreateDirectories(cleaned, versionDir);
    if created.Failure? {
      DownloadFailedNamesUrl(url, created.error);
    } else {
      var o := Extract(created.value, versionDir, respond(url));
      if o.0.Failure? {
        DownloadFailedNamesUrl(url, o.0.error);
      }
    }
  }

  /** A failed rebuild leaves the cleaned tree, or the tree with the directory recreated. */
  lemma RebuildFailureTree(fs: Tree, versionDir: Path, url: string, respond: string -> Response)
    ensures var cleaned := if versionDir in fs then DeleteTree(fs, versionDir) else fs;
      var created := CreateDirectories(cleaned, versionDir);
      var R := Rebuild(fs, versionDir, url, respond);
      R.result.Failure? ==> R.fs == cleaned || (created.Success? && R.fs == created.value)
  {
    var cleaned := if versionDir in fs then DeleteTree(fs, versionDir) else fs;
    var created := CreateDirectories(cleaned, versionDir);
    if created.Success? {
      ExtractFailureKeepsTree(created.value, versionDir, respond(url));
    }
  }

  /** A failed download or extraction leaves the tree as it was. */
  lemma ExtractFailureKeepsTree(fs: Tree, targetDir: Path, response: Response)
    ensures Extract(fs, targetDir, response).0.Failure? ==> Extract(fs, targetDir, response).1 == fs
  {
  }

  /** Neither the cleaned tree nor the recreated directory holds a marker. */
  lemma MarkerAbsentAfterCleaning(fs: Tree, versionDir: Path)
    requires WellFormed(fs) && |versionDir| > 0
    ensures var cleaned := if versionDir in fs then DeleteTree(fs, versionDir) else fs;
      && MarkerPath(versionDir) !in cleaned
      && (CreateDirectories(cleaned, versionDir).Success? ==>
            MarkerPath(versionDir) !in CreateDirectories(cleaned, versionDir).value)
  {
    var marker := MarkerPath(versionDir);
    var cleaned := if versionDir in fs then DeleteTree(fs, versionDir) else fs;
    assert marker !in cleaned by {
      assert marker[..|versionDir|] == versionDir;
      assert marker[..|marker| - 1] == versionDir;
    }
    assert marker !in Ancestry(versionDir) by {
      assert forall q :: q in Ancestry(versionDir) ==> |q| <= |versionDir|;
    }
  }

  lemma DownloadFailedNamesUrl(url: string, cause: Exception)
    ensures Contains(DownloadFailed(url, cause).message, url)
  {
    var head := DownloadFailedPrefix;
    assert (head + url)[|head|..|head| + |url|] == url;
    ContainsAt(head + url, url, |head|);
  }

  /** After any failure the entry is still incomplete, and no marker was created. */
  lemma ResolveFailureNotCached(fs: Tree, cacheDir: Path, version: string, folderName: string,
                                osName: string, osArch: string, respond: string -> Response)
    requires WellFormed(fs) && |cacheDir| > 0
    ensures var versionDir := Resolve(cacheDir, folderName);
      var R := ResolveSpec(fs, cacheDir, version, folderName, osName, osArch, respond);
      R.result.Failure? ==> !IsCached(R.fs, versionDir) && (MarkerPath(versionDir) in R.fs ==> MarkerPath(versionDir) in fs)
  {
    var versionDir := Resolve(cacheDir, folderName);
    if !IsCached(fs, versionDir) {
      var p := GetCurrentSupported(osName, osArch);
      if p.Success? && GenerateUrl(version, p.value).Success? {
        RebuildFailureNotCached(fs, versionDir, GenerateUrl(version, p.value).value, respond);
      }
    }
  }

  /**
   * An unsupported host or a malformed version is reported before anything
   * is deleted or requested, and the error is not wrapped.
   */
  lemma ResolveRejectsEarly(fs: Tree, cacheDir: Path, version: string, folderName: string,
                            osName: string, osArch: string, respond: string -> Response)
    requires !IsCached(fs, Resolve(cacheDir, folderName))
    requires GetCurrentSupported(osName, osArch).Failure? || forall major, build :: !Matches(version, major, build)
    ensures var R := ResolveSpec(fs, cacheDir, version, folderName, osName, osArch, respond);
      && R.result.Failure? && R.fs == fs && R.fetched == []
      && (GetCurrentSupported(osName, osArch).Failure? ==>
            R.result.error == GetCurrentSupported(osName, osArch).error)
      && (GetCurrentSupported(osName, osArch).Success? ==>
            R.result.error == IllegalArgumentException(InvalidVersionMessage(version)))
  {
    var p := GetCurrentSupported(osName, osArch);
    if p.Success? {
      GenerateUrlCorrect(version, p.value);
    }
  }

  /** The executable's file name on a platform. */
  function BinaryName(platform: Platform): string {
    if platform.Type() == Windows then "jextract.bat" else "jextract"
  }

  /** The names of the sub-directories of dir. */
  function ChildDirectories(fs: Tree, dir: Path): set<string> {
    set p | p in fs && |p| == |dir| + 1 && p[..|dir|] == dir && fs[p].Directory? :: p[|dir|]
  }

  /** Both places searched lie below the tool directory and end with the binary's name. */
  lemma BinaryUnderToolDir(toolDir: Path, binaryName: string, subs: set<string>, found: Path)
    requires found == toolDir + ["bin", binaryName] || exists sub :: sub in subs && found == toolDir + [sub, "bin", binaryName]
    ensures Under(toolDir, found) && |found| > 0 && found[|found| - 1] == binaryName
  {
    assert found[..|toolDir|] == toolDir;
  }

  function NotFoundMessage(binaryName: string, toolDir: Path): string {
    "Jextract binary '" + binaryName + "' not found in " + Render(toolDir)
  }

  /**
   * The build service: its parameters (the cache directory and the optional
   * version), the file system it works on, the URLs it has requested and the
   * temporary archive files currently on disk.
   */
  class JextractToolService {
    const cacheDir: Path
    const version: Option<string>
    var fs: Tree
    var fetched: seq<string>
    var tempArchives: set<nat>
    var tempCounter: nat

    /** Every live temporary file has a name that was handed out. */
    ghost predicate Valid()
      reads this
    {
      forall n :: n in tempArchives ==> n < tempCounter
    }

    constructor(cacheDir: Path, version: Option<string>, fs: Tree)
      ensures Valid()
      ensures this.cacheDir == cacheDir && this.version == version && this.fs == fs
      ensures fetched == [] && tempArchives == {}
    {
      this.cacheDir := cacheDir;
      this.version := version;
      this.fs := fs;
      fetched := [];
      tempArchives := {};
      tempCounter := 0;
    }

    /** `getVersion().getOrElse(DEFAULT_VERSION)` */
    function EffectiveVersion(): (v: string)
      reads this
      ensures version.None? ==> v == DefaultVersion
      ensures version.Some? ==> v == version.value
    {
      match version
      case None => DefaultVersion
      case Some(v) => v
    }

    /**
     * `downloadAndExtract`: fetch into a fresh temporary file, check the
     * status, sync the archive into the target; the temporary file is
     * deleted on every path.
     */
    method DownloadAndExtract(url: string, targetDir: Path, respond: string -> Response)
      returns (outcome: Result<(), Exception>)
      requires Valid()
      modifies this
      ensures Valid()
      ensures (outcome, fs) == Extract(old(fs), targetDir, respond(url))
      ensures fetched == old(fetched) + [url]
      ensures tempArchives == old(tempArchives)
    {
      var temp := tempCounter;
      tempCounter := tempCounter + 1;
      tempArchives := tempArchives + {temp};
      var response := respond(url);
      fetched := fetched + [url];
      match response {
        case NoResponse(reason) =>
          outcome := Failure(IOException(reason));
        case Reply(status, body) =>
          if status != HttpOk {
            outcome := Failure(StatusFailure(status));
          } else if body.Corrupt? {
            outcome := Failure(CorruptArchive());
          } else {
            fs := Sync(fs, targetDir, body.entries);
            outcome := Success(());
          }
      }
      tempArchives := tempArchives - {temp};
    }

    /** `resolveToolDir`: the cached directory, or a fresh download of it. */
    method ResolveToolDir(folderName: string, osName: string, osArch: string, respond: string -> Response)
      returns (r: Result<Path, Exception>)
      requires Valid()
      modifies this
      ensures Valid()
      ensures var R := ResolveSpec(old(fs), cacheDir, EffectiveVersion(), folderName, osName, osArch, respond);
        r == R.result && fs == R.fs && fetched == old(fetched) + R.fetched
      ensures tempArchives == old(tempArchives)
    {
      var versionDir := Resolve(cacheDir, folderName);
      if versionDir in fs && MarkerPath(versionDir) in fs {
        return Success(versionDir);
      }
      var platform := GetCurrentSupported(osName, osArch);
      if platform.Failure? {
        return Failure(platform.error);
      }
      var url := GenerateUrl(EffectiveVersion(), platform.value);
      if url.Failure? {
        return Failure(url.error);
      }
      if versionDir in fs {
        fs := DeleteTree(fs, versionDir);
      }
      var created := CreateDirectories(fs, versionDir);
      if created.Failure? {
        return Failure(DownloadFailed(url.value, created.error));
      }
      fs := created.value;
      var outcome := DownloadAndExtract(url.value, versionDir, respond);
      if outcome.Failure? {
        return Failure(DownloadFailed(url.value, outcome.error));
      }
      fs := CreateNewFile(fs, MarkerPath(versionDir));
      r := Success(versionDir);
    }

    /**
     * The search of `getExecutable`: `bin/<binary>` directly in the tool
     * directory, otherwise in one of its sub-directories.  The listing order
     * of sub-directories is unspecified, so any one holding the binary may be
     * the one found.
     */
    method FindBinary(toolDir: Path, binaryName: string) returns (r: Result<Path, Exception>)
      ensures toolDir + ["bin", binaryName] in fs ==> r == Success(toolDir + ["bin", binaryName])
      ensures r.Success? ==>
        && r.value in fs
        && (|| r.value == toolDir + ["bin", binaryName]
            || exists sub :: sub in ChildDirectories(fs, toolDir) && r.value == toolDir + [sub, "bin", binaryName])
      ensures r.Failure? <==>
        toolDir + ["bin", binaryName] !in fs &&
        forall sub :: sub in ChildDirectories(fs, toolDir) ==> toolDir + [sub, "bin", binaryName] !in fs
      ensures r.Failure? ==> r.error == GradleException(NotFoundMessage(binaryName, toolDir), None)
    {
      var direct := toolDir + ["bin", binaryName];
      if direct in fs {
        return Success(direct);
      }
      var remaining := ChildDirectories(fs, toolDir);
      while remaining != {}
        invariant remaining <= ChildDirectories(fs, toolDir)
        invariant forall sub :: sub in ChildDirectories(fs, toolDir) && sub !in remaining ==>
          toolDir + [sub, "bin", binaryName] !in fs
        decreases remaining
      {
        var sub :| sub in remaining;
        var nested := toolDir + [sub, "bin", binaryName];
        if nested in fs {
          return Success(nested);
        }
        remaining := remaining - {sub};
      }
      r := Failure(GradleException(NotFoundMessage(binaryName, toolDir), None));
    }

    /**
     * `getExecutable`: resolve the tool directory for the effective version,
     * then look for the platform's binary in it.
     */
    method GetExecutable(osName: string, osArch: string, respond: string -> Response)
      returns (r: Result<Path, Exception>)
      requires Valid()
      modifies this
      ensures Valid()
      ensures var R := ResolveSpec(old(fs), cacheDir, EffectiveVersion(), FolderName(EffectiveVersion()),
                                   osName, osArch, respond);
        && fs == R.fs && fetched == old(fetched) + R.fetched
        && (R.result.Failure? ==> r == R.result)
        && (r.Success? ==>
              && R.result.Success? && GetCurrentSupported(osName, osArch).Success?
              && r.value in fs && Under(R.result.value, r.value) && |r.value| > 0
              && r.value[|r.value| - 1] == BinaryName(GetCurrentSupported(osName, osArch).value))
      ensures var R := ResolveSpec(old(fs), cacheDir, EffectiveVersion(), FolderName(EffectiveVersion()),
                                   osName, osArch, respond);
        var P := GetCurrentSupported(osName, osArch);
        R.result.Success? && P.Failure? ==> r == Failure(P.error)
      ensures var R := ResolveSpec(old(fs), cacheDir, EffectiveVersion(), FolderName(EffectiveVersion()),
                                   osName, osArch, respond);
        var P := GetCurrentSupported(osName, osArch);
        R.result.Success? && P.Success? ==>
          var toolDir, binaryName := R.result.value, BinaryName(P.value);
          && (toolDir + ["bin", binaryName] in fs ==> r == Success(toolDir + ["bin", binaryName]))
          && (r.Success? ==>
                || r.value == toolDir + ["bin", binaryName]
                || exists sub :: sub in ChildDirectories(fs, toolDir) && r.value == toolDir + [sub, "bin", binaryName])
          && (r.Failure? <==>
                toolDir + ["bin", binaryName] !in fs &&
                forall sub :: sub in ChildDirectories(fs, toolDir) ==> toolDir + [sub, "bin", binaryName] !in fs)
          && (r.Failure? ==> r.error == GradleException(NotFoundMessage(binaryName, toolDir), None))
      ensures tempArchives == old(tempArchives)
    {
      var toolDir := ResolveToolDir(FolderName(EffectiveVersion()), osName, osArch, respond);
      if toolDir.Failure? {
        return Failure(toolDir.error);
      }
      var platform := GetCurrentSupported(osName, osArch);
      if platform.Failure? {
        return Failure(platform.error);
      }
      r := FindBinary(toolDir.value, BinaryName(platform.value));
      if r.Success? {
        BinaryUnderToolDir(toolDir.value, BinaryName(platform.value), ChildDirectories(fs, toolDir.value), r.value);
      }
    }
  }
}
