/**
 * The closed set of platforms jextract is published for, and the
 * classification of the running host (os.name, os.arch) into one of them.
 */
module SupportedPlatform {
  import opened Wrappers
  import opened Strings
  import opened Exceptions

  datatype PlatformType = Windows | Linux | MacOs

  datatype Platform = WindowsX64 | LinuxX64 | LinuxArm64 | MacOsX64 | MacOsArm64
  {
    function Type(): PlatformType {
      match this
      case WindowsX64 => Windows
      case LinuxX64 | LinuxArm64 => Linux
      case MacOsX64 | MacOsArm64 => MacOs
    }

    /** The platform segment of the download file name. */
    function Id(): string {
      match this
      case WindowsX64 => "windows-x64"
      case LinuxX64 => "linux-x64"
      case LinuxArm64 => "linux-aarch64"
      case MacOsX64 => "macos-x64"
      case MacOsArm64 => "macos-aarch64"
    }

    predicate IsArm() { this == LinuxArm64 || this == MacOsArm64 }
  }

  /** The constants in declaration order. */
  const AllPlatforms: seq<Platform> := [WindowsX64, LinuxX64, LinuxArm64, MacOsX64, MacOsArm64]

  function TypePrefix(t: PlatformType): string {
    match t
    case Windows => "windows-"
    case Linux => "linux-"
    case MacOs => "macos-"
  }

  /** Every platform is listed once, and each id starts with its type's prefix. */
  lemma PlatformsClosed(p: Platform)
    ensures p in AllPlatforms
    ensures |AllPlatforms| == 5
    ensures forall i, j :: 0 <= i < j < |AllPlatforms| ==> AllPlatforms[i].Id() != AllPlatforms[j].Id()
    ensures StartsWith(p.Id(), TypePrefix(p.Type()))
  {
  }

  /** ARM is recognised on the lower-cased architecture string. */
  predicate IsArmArch(arch: string) {
    Contains(arch, "aarch64") || Contains(arch, "arm64")
  }

  const UnsupportedPrefix: string := "Unsupported OS/Arch combination: "

  function UnsupportedMessage(os: string, arch: string): string {
    UnsupportedPrefix + os + " / " + arch
  }

  /**
   * `getCurrentSupported`, taking the os.name and os.arch properties as
   * inputs: an ordered choice on the lower-cased OS name, with the ARM test
   * deciding between the two Linux and the two macOS builds.
   */
  function GetCurrentSupported(osName: string, osArch: string): (r: Result<Platform, Exception>)
    ensures r.Success? ==> (r.value.Type() == Windows <==> Contains(Lower(osName), "win"))
    ensures r.Success? && r.value.Type() == MacOs ==> Contains(Lower(osName), "mac")
    ensures r.Success? && r.value.Type() == Linux ==> !Contains(Lower(osName), "mac") && Contains(Lower(osName), "nux")
    ensures !Contains(Lower(osName), "win") && Contains(Lower(osName), "mac") ==>
      r.Success? && r.value.Type() == MacOs
    ensures !Contains(Lower(osName), "win") && !Contains(Lower(osName), "mac") && Contains(Lower(osName), "nux") ==>
      r.Success? && r.value.Type() == Linux
    ensures r.Success? && r.value.Type() != Windows ==> (r.value.IsArm() <==> IsArmArch(Lower(osArch)))
    ensures r.Failure? <==>
      !Contains(Lower(osName), "win") && !Contains(Lower(osName), "mac") && !Contains(Lower(osName), "nux")
    ensures r.Failure? ==>
      r.error == GradleException(UnsupportedMessage(Lower(osName), Lower(osArch)), None)
  {
    var os := Lower(osName);
    var arch := Lower(osArch);
    var isArm := IsArmArch(arch);
    if Contains(os, "win") then Success(WindowsX64)
    else if Contains(os, "mac") then Success(if isArm then MacOsArm64 else MacOsX64)
    else if Contains(os, "nux") then Success(if isArm then LinuxArm64 else LinuxX64)
    else Failure(GradleException(UnsupportedMessage(os, arch), None))
  }

  lemma LowerIdempotent(s: string)
    ensures Lower(Lower(s)) == Lower(s)
  {
  }

  /** Both inputs are lower-cased first, so the letter case of either is irrelevant. */
  lemma GetCurrentSupportedIgnoresCase(osName: string, osArch: string)
    ensures GetCurrentSupported(osName, osArch) == GetCurrentSupported(Lower(osName), Lower(osArch))
  {
    LowerIdempotent(osName);
    LowerIdempotent(osArch);
  }

  /** Whether detection succeeds depends on the OS name alone: an unknown architecture falls back to x64. */
  lemma ArchNeverRejected(osName: string, arch1: string, arch2: string)
    ensures GetCurrentSupported(osName, arch1).Success? == GetCurrentSupported(osName, arch2).Success?
    ensures GetCurrentSupported(osName, arch1).Success? && !IsArmArch(Lower(arch1)) ==>
      !GetCurrentSupported(osName, arch1).value.IsArm()
  {
  }

  /** The failure message names both the OS and the architecture. */
  lemma UnsupportedMessageNamesBoth(os: string, arch: string)
    ensures Contains(UnsupportedMessage(os, arch), os)
    ensures Contains(UnsupportedMessage(os, arch), arch)
  {
    var head := UnsupportedPrefix;
    assert UnsupportedMessage(os, arch)[|head|..|head| + |os|] == os;
    ContainsAt(UnsupportedMessage(os, arch), os, |head|);
    var k := |head| + |os| + 3;
    assert UnsupportedMessage(os, arch)[k..k + |arch|] == arch;
    ContainsAt(UnsupportedMessage(os, arch), arch, k);
  }
}
