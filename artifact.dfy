/** The artifacts the locator found (internal/models/artifact.go). */
module ArtifactModel {
  import opened Options

  datatype ArtifactType = Compose | Env | EnvExample | Manifest | Readme | Makefile

  /** Go's `Language` is a string; the detector only ever stores the constants below (or leaves it empty). */
  type Language = string

  const LangNodeJS: Language := "nodejs"
  const LangGo: Language := "go"
  const LangPython: Language := "python"
  const LangRust: Language := "rust"
  const LangJava: Language := "java"
  const LangCSharp: Language := "csharp"

  datatype Artifact = Artifact(kind: ArtifactType, path: string, language: Language, details: string, found: bool)

  /** True iff some artifact of the list was found; a scan that stops at the first hit. */
  function AnyFound(artifacts: seq<Artifact>): (r: bool)
    ensures r <==> exists i | 0 <= i < |artifacts| :: artifacts[i].found
  {
    if artifacts == [] then false
    else if artifacts[0].found then true
    else AnyFound(artifacts[1..])
  }

  /** The artifact collection, updated in place by the locator. */
  class Artifacts {
    var composeFiles: seq<Artifact>
    var envFiles: seq<Artifact>
    var envExamples: seq<Artifact>
    var manifests: seq<Artifact>
    var readme: Option<Artifact>
    var makefile: Option<Artifact>
    var detectedLang: Language
    var packageManager: string

    /** `NewArtifacts`: four empty lists, no README, no Makefile, nothing detected. */
    constructor NewArtifacts()
      ensures composeFiles == [] && envFiles == [] && envExamples == [] && manifests == []
      ensures readme == None && makefile == None && detectedLang == "" && packageManager == ""
      ensures !HasCompose() && !HasEnv() && !HasEnvExample()
    {
      composeFiles, envFiles, envExamples, manifests := [], [], [], [];
      readme, makefile := None, None;
      detectedLang, packageManager := "", "";
    }

    function HasCompose(): (r: bool)
      reads this
      ensures r <==> exists i | 0 <= i < |composeFiles| :: composeFiles[i].found
    {
      AnyFound(composeFiles)
    }

    function HasEnv(): (r: bool)
      reads this
      ensures r <==> exists i | 0 <= i < |envFiles| :: envFiles[i].found
    {
      AnyFound(envFiles)
    }

    function HasEnvExample(): (r: bool)
      reads this
      ensures r <==> exists i | 0 <= i < |envExamples| :: envExamples[i].found
    {
      AnyFound(envExamples)
    }
  }
}
