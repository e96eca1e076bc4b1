module Architectures {

  // Every spelling of an architecture: the build artefacts, the BIOS loader and the EFI
  // loader each have their own.
  function ArchitectureAliases(architecture: string): set<string> {
    if architecture in {"amd64", "x86_64", "x64"} then {"amd64", "x86_64", "x64"}
    else if architecture in {"arm64", "aarch64"} then {"arm64", "aarch64"}
    else {architecture}
  }

  // Two spellings of one architecture: anything else only names itself.
  ghost predicate SameArchitecture(a: string, b: string) {
    a == b || BothIn(a, b, {"amd64", "x86_64", "x64"}) || BothIn(a, b, {"arm64", "aarch64"})
  }

  ghost predicate BothIn(a: string, b: string, names: set<string>) {
    a in names && b in names
  }

  lemma AliasesAre(a: string, b: string)
    ensures a in ArchitectureAliases(b) <==> SameArchitecture(a, b)
  {
    SpellingsDiffer();
  }

  lemma SpellingsDiffer()
    ensures {"amd64", "x86_64", "x64"} !! {"arm64", "aarch64"}
  {
    assert "amd64"[1] == 'm' && "arm64"[1] == 'r';
    assert |"x86_64"| == 6 && |"x64"| == 3 && |"aarch64"| == 7;
  }

  // So it does not matter which spelling the build, the machine or the request uses.
  lemma SameIsEquivalence(a: string, b: string, c: string)
    ensures SameArchitecture(a, a)
    ensures SameArchitecture(a, b) ==> SameArchitecture(b, a)
    ensures SameArchitecture(a, b) && SameArchitecture(b, c) ==> SameArchitecture(a, c)
  {
    SpellingsDiffer();
  }
}
