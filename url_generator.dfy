/**
 * The jextract download URL for a version identifier such as
 * `25-jextract+2-4`: the identifier must match `^(\d+)-jextract\+(\d+)(?:-.*)?$`
 * (java.util.regex, whole-string match); its two digit groups and the raw
 * identifier fill a fixed template.
 */
module UrlGenerator {
  import opened Wrappers
  import opened Strings
  import opened Exceptions
  import opened SupportedPlatform

  const VersionPattern: string := "^(\\d+)-jextract\\+(\\d+)(?:-.*)?$"

  /** The literal text between the two digit groups. */
  const Tag: string := "-jextract+"

  const UrlBase: string := "https://download.java.net/java/early_access/jextract/"

  datatype VersionParts = VersionParts(major: string, build: string)

  /** The characters `.` does not match in java.util.regex without DOTALL. */
  predicate IsLineTerminator(c: char) {
    c == '\n' || c == '\r' || c == '\U{0085}' || c == '\U{2028}' || c == '\U{2029}'
  }

  /** `(?:-.*)?$`: nothing, or a dash followed by anything on the same line. */
  predicate IsSuffix(t: string) {
    t == [] || (t[0] == '-' && forall i :: 1 <= i < |t| ==> !IsLineTerminator(t[i]))
  }

  /** The grammar, as a reference: version is major + Tag + build + suffix. */
  predicate Matches(version: string, major: string, build: string) {
    && |major| > 0 && AllDigits(major)
    && |build| > 0 && AllDigits(build)
    && StartsWith(version, major + Tag + build)
    && IsSuffix(version[|major + Tag + build|..])
  }

  /** The longest run of digits at the front of s. */
  function LeadingDigits(s: string): (r: string)
    ensures StartsWith(s, r) && AllDigits(r)
    ensures |r| < |s| ==> !IsDigit(s[|r|])
  {
    if |s| > 0 && IsDigit(s[0]) then [s[0]] + LeadingDigits(s[1..]) else []
  }

  /** `VERSION_PATTERN.matcher(version).matches()` with `group(1)` and `group(2)`. */
  function MatchVersion(version: string): (r: Option<VersionParts>)
    ensures r.Some? ==> Matches(version, r.value.major, r.value.build)
  {
    var major := LeadingDigits(version);
    var rest := version[|major|..];
    if |major| == 0 || !StartsWith(rest, Tag) then None
    else
      var afterTag := rest[|Tag|..];
      var build := LeadingDigits(afterTag);
      if |build| == 0 || !IsSuffix(afterTag[|build|..]) then None
      else
        assert version[..|major + Tag + build|] == major + Tag + build by {
          assert version == major + rest;
          assert rest == Tag + afterTag;
          assert afterTag[..|build|] == build;
        }
        assert version[|major + Tag + build|..] == afterTag[|build|..];
        Some(VersionParts(major, build))
  }

  lemma {:induction false} LeadingDigitsOf(d: string, t: string)
    requires AllDigits(d)
    requires t == [] || !IsDigit(t[0])
    ensures LeadingDigits(d + t) == d
    decreases |d|
  {
    if d == [] {
      assert d + t == t;
    } else {
      assert (d + t)[1..] == d[1..] + t;
      LeadingDigitsOf(d[1..], t);
      assert d == [d[0]] + d[1..];
    }
  }

  /** Whatever matches the grammar is matched, with exactly its two groups. */
  lemma MatchVersionComplete(version: string, major: string, build: string)
    requires Matches(version, major, build)
    ensures MatchVersion(version) == Some(VersionParts(major, build))
  {
    var suffix := version[|major + Tag + build|..];
    assert version == major + (Tag + (build + suffix)) by {
      assert version == version[..|major + Tag + build|] + suffix;
    }
    LeadingDigitsOf(major, Tag + (build + suffix));
    var rest := version[|major|..];
    assert rest == Tag + (build + suffix);
    assert StartsWith(rest, Tag);
    var afterTag := rest[|Tag|..];
    assert afterTag == build + suffix;
    assert suffix == [] || !IsDigit(suffix[0]);
    LeadingDigitsOf(build, suffix);
    assert afterTag[|build|..] == suffix;
  }

  /** The groups are determined: no identifier has two different readings. */
  lemma MatchUnique(version: string, major1: string, build1: string, major2: string, build2: string)
    requires Matches(version, major1, build1) && Matches(version, major2, build2)
    ensures major1 == major2 && build1 == build2
  {
    MatchVersionComplete(version, major1, build1);
    MatchVersionComplete(version, major2, build2);
  }

  function InvalidVersionMessage(version: string): string {
    "Version string '" + version + "' does not match expected pattern: " + VersionPattern
  }

  function Url(major: string, build: string, version: string, platform: Platform): string {
    UrlBase + major + "/" + build + "/openjdk-" + version + "_" + platform.Id() + "_bin.tar.gz"
  }

  /** `generateUrl`: the template filled in, or IllegalArgumentException. */
  function GenerateUrl(version: string, platform: Platform): (r: Result<string, Exception>)
    ensures r.Failure? ==> r.error == IllegalArgumentException(InvalidVersionMessage(version))
    ensures r.Success? ==> StartsWith(r.value, UrlBase) && EndsWith(r.value, "_bin.tar.gz")
  {
    match MatchVersion(version)
    case None => Failure(IllegalArgumentException(InvalidVersionMessage(version)))
    case Some(parts) =>
      var url := Url(parts.major, parts.build, version, platform);
      assert url[..|UrlBase|] == UrlBase;
      assert url[|url| - |"_bin.tar.gz"|..] == "_bin.tar.gz";
      Success(url)
  }

  /**
   * A version is accepted exactly when it matches the grammar; the URL is the
   * template filled with the grammar's two groups, the raw version and the
   * platform id.
   */
  lemma GenerateUrlCorrect(version: string, platform: Platform)
    ensures forall major, build :: Matches(version, major, build) ==>
      GenerateUrl(version, platform) == Success(Url(major, build, version, platform))
    ensures GenerateUrl(version, platform).Failure? ==>
      forall major, build :: !Matches(version, major, build)
    ensures GenerateUrl(version, platform).Success? ==>
      exists major, build :: Matches(version, major, build)
  {
    if GenerateUrl(version, platform).Success? {
      var parts := MatchVersion(version).value;
      assert Matches(version, parts.major, parts.build);
    }
    forall major, build | Matches(version, major, build)
      ensures GenerateUrl(version, platform) == Success(Url(major, build, version, platform))
    {
      MatchVersionComplete(version, major, build);
    }
  }

  /** The raw version appears verbatim in every URL built from it. */
  lemma UrlContainsVersion(major: string, build: string, version: string, platform: Platform)
    ensures Contains(Url(major, build, version, platform), version)
  {
    var head := UrlBase + major + "/" + build + "/openjdk-";
    var id := platform.Id();
    var named := head + version;
    assert named[|head|..|head| + |version|] == version;
    ContainsAt(named, version, |head|);
    ContainsInConcat(named, "_", version);
    ContainsInConcat(named + "_", id, version);
    ContainsInConcat(named + "_" + id, "_bin.tar.gz", version);
  }

  /** A rejected version is named in the exception message. */
  lemma RejectionNamesVersion(version: string)
    ensures Contains(InvalidVersionMessage(version), version)
  {
    var head := "Version string '";
    var message := InvalidVersionMessage(version);
    assert message == head + version + ("' does not match expected pattern: " + VersionPattern);
    assert message[|head|..|head| + |version|] == version;
    ContainsAt(message, version, |head|);
  }

  /** An identifier built from two digit groups and a suffix is accepted with those groups. */
  lemma GenerateUrlOf(major: string, build: string, suffix: string, platform: Platform)
    requires |major| > 0 && AllDigits(major) && |build| > 0 && AllDigits(build) && IsSuffix(suffix)
    ensures GenerateUrl(major + Tag + build + suffix, platform)
      == Success(Url(major, build, major + Tag + build + suffix, platform))
  {
    var v := major + Tag + build + suffix;
    assert v[..|major + Tag + build|] == major + Tag + build;
    assert v[|major + Tag + build|..] == suffix;
    MatchVersionComplete(v, major, build);
  }

  /** The default version `25-jextract+2-4` read as its groups and suffix. */
  lemma DefaultVersionPieces(v: string)
    requires v == "25-jextract+2-4"
    ensures v == "25" + Tag + "2" + "-4"
  {
  }

  /** The first unit-test vector: the groups are `25` and `2`, and the URL ends in `openjdk-25-jextract+2-4_linux-x64_bin.tar.gz`. */
  lemma GenerateUrlLinuxExample(v: string)
    requires v == "25-jextract+2-4"
    ensures GenerateUrl(v, LinuxX64) ==
      Success(UrlBase + "25" + "/" + "2" + "/openjdk-" + v + "_" + "linux-x64" + "_bin.tar.gz")
  {
    DefaultVersionPieces(v);
    GenerateUrlOf("25", "2", "-4", LinuxX64);
  }

  /** The second unit-test vector: the groups are `25` and `2`, and the URL ends in `openjdk-25-jextract+2-4_macos-aarch64_bin.tar.gz`. */
  lemma GenerateUrlMacExample(v: string)
    requires v == "25-jextract+2-4"
    ensures GenerateUrl(v, MacOsArm64) ==
      Success(UrlBase + "25" + "/" + "2" + "/openjdk-" + v + "_" + "macos-aarch64" + "_bin.tar.gz")
  {
    DefaultVersionPieces(v);
    GenerateUrlOf("25", "2", "-4", MacOsArm64);
  }

  /** The version `26-jextract+5-1` read as its groups and suffix. */
  lemma NextVersionPieces(v: string)
    requires v == "26-jextract+5-1"
    ensures v == "26" + Tag + "5" + "-1"
  {
  }

  /** The third unit-test vector: the groups are `26` and `5`, and the URL ends in `openjdk-26-jextract+5-1_windows-x64_bin.tar.gz`. */
  lemma GenerateUrlWindowsExample(v: string)
    requires v == "26-jextract+5-1"
    ensures GenerateUrl(v, WindowsX64) ==
      Success(UrlBase + "26" + "/" + "5" + "/openjdk-" + v + "_" + "windows-x64" + "_bin.tar.gz")
  {
    NextVersionPieces(v);
    GenerateUrlOf("26", "5", "-1", WindowsX64);
  }

  /** The rejected identifier of the unit tests. */
  lemma GenerateUrlRejectsExample()
    ensures GenerateUrl("invalid-version", LinuxX64).Failure?
  {
    assert LeadingDigits("invalid-version") == [];
  }

  /** No suffix at all is accepted too. */
  lemma SuffixOptional(major: string, build: string, platform: Platform)
    requires |major| > 0 && AllDigits(major) && |build| > 0 && AllDigits(build)
    ensures GenerateUrl(major + Tag + build, platform).Success?
  {
    var v := major + Tag + build;
    assert v[..|v|] == v;
    MatchVersionComplete(v, major, build);
  }
}
