/**
 * The build-profile compatibility matrix: which (architecture, configuration)
 * pairs can be built, with which `make` invocation, which pre-build command,
 * and whether the bare-metal configuration tweak is applied.
 */
module BuildProfile {
  import opened Wrappers
  import opened PyText

  /** ALLOWED_ARCH; the command line accepts no other value. */
  datatype Arch = X86 | Aarch32 | Aarch64

  /** ALLOWED_CONFIG; the command line accepts no other value. */
  datatype Config = Default | Full | Baremetal | TfmMedium

  /** The one error of this module: the pair has no build command; the process exits with status -1. */
  datatype Incompatible = Incompatible(config: Config, arch: Arch)

  const UnsupportedExitCode: int := -1

  /** The supported pairs, listed independently of how the build command is chosen. */
  predicate Supported(arch: Arch, config: Config) {
    (arch, config) in {(X86, Default), (X86, Full), (X86, Baremetal),
                       (Aarch32, Default), (Aarch64, Default), (Aarch32, TfmMedium)}
  }

  /** PRE_BUILD_CMDS: the configuration script run before the build, or "" for none. */
  function PreBuildCommand(config: Config): string {
    match config
    case Default => ""
    case Full => "scripts/config.py full"
    case Baremetal => "scripts/config.py baremetal"
    case TfmMedium => ""
  }

  /** `n` spaces: the indentation that a backslash line continuation keeps inside a string literal. */
  function Spaces(n: nat): (s: string)
    ensures |s| == n && forall i :: 0 <= i < n ==> s[i] == ' '
  {
    seq(n, _ => ' ')
  }

  const GenericMake: string := "make -j lib"

  function CrossMakePrefix(armcc: string): string {
    GenericMake + " CC=" + armcc
  }

  /** A cross build: make with the given compiler and the text that follows " CFLAGS=". */
  function CrossMake(armcc: string, cflags: string): (cmd: string)
    ensures StartsWith(cmd, CrossMakePrefix(armcc) + " CFLAGS=")
  {
    var prefix := CrossMakePrefix(armcc) + " CFLAGS=";
    assert (prefix + cflags)[..|prefix|] == prefix;
    prefix + cflags
  }

  const Aarch32DefaultFlags: string :=
    "\"--target=arm-arm-none-eabi " + Spaces(28) + "-mcpu=cortex-m33 -Os\" "

  const Aarch64DefaultFlags: string :=
    "\"--target=aarch64-arm-none-eabi\" "

  const Aarch32TfmMediumFlags: string :=
    "'--target=arm-arm-none-eabi -mcpu=cortex-m33 -Os "
    + Spaces(12) + "-DMBEDTLS_CONFIG_FILE=\\\"../configs/tfm_mbedcrypto_config_profile_medium.h\\\" "
    + Spaces(12) + "-DMBEDTLS_PSA_CRYPTO_CONFIG_FILE=\\\"../configs/crypto_config_profile_medium.h\\\" ' "

  /**
   * `_set_make_command`: the build command of a supported pair; every other
   * pair is refused.
   */
  function MakeCommand(arch: Arch, config: Config, armcc: string): (r: Result<string, Incompatible>)
    ensures r.Success? <==> Supported(arch, config)
    ensures r.Failure? ==> r.error == Incompatible(config, arch)
    ensures r.Success? && arch == X86 ==> r.value == GenericMake
    ensures r.Success? && arch != X86 ==> StartsWith(r.value, CrossMakePrefix(armcc) + " CFLAGS=")
  {
    if arch == X86 && config in {Default, Full, Baremetal} then
      Success(GenericMake)
    else if config == Default && arch == Aarch32 then
      Success(CrossMake(armcc, Aarch32DefaultFlags))
    else if config == Default && arch == Aarch64 then
      Success(CrossMake(armcc, Aarch64DefaultFlags))
    else if arch == Aarch32 && config == TfmMedium then
      Success(CrossMake(armcc, Aarch32TfmMediumFlags))
    else
      Failure(Incompatible(config, arch))
  }

  /** The configuration tweak applies to the cross targets in their default configuration only. */
  predicate NeedsArchTweak(arch: Arch, config: Config) {
    arch in {Aarch32, Aarch64} && config == Default
  }

  /** ARCH_CONFIG_SET_FROM_DEFAULT. */
  const ArchConfigSet: set<string> := {"MBEDTLS_NO_PLATFORM_ENTROPY"}

  /** ARCH_CONFIG_UNSET_FROM_DEFAULT. */
  const ArchConfigUnset: set<string> := {
    "MBEDTLS_FS_IO", "MBEDTLS_HAVE_TIME", "MBEDTLS_HAVE_TIME_DATE", "MBEDTLS_NET_C",
    "MBEDTLS_PSA_CRYPTO_STORAGE_C", "MBEDTLS_PSA_ITS_FILE_C", "MBEDTLS_TIMING_C"
  }

  /** One option mutation of `_tweak_config`: `verb` is "set" or "unset". */
  function TweakCommand(verb: string, option: string): string {
    "./scripts/config.py " + verb + " " + option
  }

  /** x86 builds with the plain library target and never gets a cross compiler. */
  lemma X86BuildsPlainLibrary(config: Config, armcc: string)
    requires config != TfmMedium
    ensures MakeCommand(X86, config, armcc) == Success("make -j lib")
    ensures !IsSubstring("CC=", GenericMake)
  {
    assert forall i :: 0 <= i < |GenericMake| ==> GenericMake[i] != 'C';
    assert forall i :: OccursAt("CC=", GenericMake, i) ==> GenericMake[i..i + 3][0] == 'C';
  }

  /** The three supported cross builds pass the given compiler to make. */
  lemma CrossBuildsUseArmcc(arch: Arch, config: Config, armcc: string)
    requires (arch, config) in {(Aarch32, Default), (Aarch64, Default), (Aarch32, TfmMedium)}
    ensures MakeCommand(arch, config, armcc).Success?
    ensures StartsWith(MakeCommand(arch, config, armcc).value, "make -j lib CC=" + armcc)
  {
  }

  /** Every pair outside the matrix is refused, with the configuration and architecture named. */
  lemma UnsupportedPairsRefused(arch: Arch, config: Config, armcc: string)
    requires !(arch == X86 && config in {Default, Full, Baremetal})
    requires !(arch in {Aarch32, Aarch64} && config == Default)
    requires !(arch == Aarch32 && config == TfmMedium)
    ensures MakeCommand(arch, config, armcc) == Failure(Incompatible(config, arch))
  {
  }

  /** Only the full and baremetal configurations run a pre-build command. */
  lemma PreBuildOnlyForFullAndBaremetal(config: Config)
    ensures PreBuildCommand(config) != "" <==> config in {Full, Baremetal}
    ensures config == Full ==> PreBuildCommand(config) == "scripts/config.py full"
    ensures config == Baremetal ==> PreBuildCommand(config) == "scripts/config.py baremetal"
  {
  }

  /** The tweak is applied only to supported cross builds, never to x86, and never together with a pre-build command. */
  lemma TweakOnlyForCrossDefault(arch: Arch, config: Config, armcc: string)
    requires NeedsArchTweak(arch, config)
    ensures arch != X86 && MakeCommand(arch, config, armcc).Success?
    ensures PreBuildCommand(config) == ""
  {
  }
}
