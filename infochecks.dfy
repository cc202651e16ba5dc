/** The informational findings: the detected language (`addLanguageInfo`) and a README run hint (`checkReadmeHints`). */
module InfoChecks {
  import opened Options
  import opened Text
  import opened Seqs
  import opened FileSystem
  import opened ArtifactModel
  import opened FindingModel

  /** The LANG001 title: the language, then the package manager when one was detected. */
  function LanguageTitle(lang: Language, packageManager: string): string {
    "Detected " + lang + " project" + (if packageManager != "" then " with " + packageManager else "")
  }

  /** `addLanguageInfo`: one LANG001 exactly when a language was detected. */
  function LanguageInfo(lang: Language, packageManager: string): (fs: seq<Finding>)
    ensures |fs| == (if lang != "" then 1 else 0)
    ensures forall i | 0 <= i < |fs| :: fs[i].code == "LANG001" && fs[i].severity == Info
  {
    if lang != "" then [Finding("LANG001", Info, LanguageTitle(lang, packageManager), "", [], "")] else []
  }

  /** The title names the language and, exactly when one is known, the package manager. */
  lemma LanguageTitleParts(lang: Language, packageManager: string)
    ensures HasPrefix(LanguageTitle(lang, packageManager), "Detected " + lang + " project")
    ensures packageManager == "" <==> LanguageTitle(lang, packageManager) == "Detected " + lang + " project"
    ensures packageManager != "" ==> HasSuffix(LanguageTitle(lang, packageManager), " with " + packageManager)
  {
    var head := "Detected " + lang + " project";
    var t := LanguageTitle(lang, packageManager);
    if packageManager != "" {
      assert t == head + (" with " + packageManager);
      assert |t| > |head|;
    }
    assert t[..|head|] == head;
  }

  /** The run commands looked for in a README, in priority order; each is also the hint it produces. */
  const HintPatterns: seq<string> := [
    "docker compose up", "docker-compose up", "pnpm install", "pnpm dev", "npm install",
    "npm run dev", "yarn install", "yarn dev", "go run", "make run", "make dev"]

  function Hint001(hint: string): Finding {
    Finding("HINT001", Info, "Likely entrypoint: " + hint + " (from README)", "", [], "")
  }

  /** The lower-cased text of the found, readable README, if there is one. */
  function ReadmeText(ws: Workspace, readme: Option<Artifact>): Option<string> {
    if readme.Some? && readme.value.found && readme.value.path in ws.contents then Some(ToLower(ws.contents[readme.value.path])) else None
  }

  /** The findings of `checkReadmeHints`: the first pattern the README contains, if any; at most one. */
  function ReadmeHints(ws: Workspace, readme: Option<Artifact>): seq<Finding> {
    match ReadmeText(ws, readme)
    case None => []
    case Some(text) =>
      match First(HintPatterns, p => Contains(text, p))
      case None => []
      case Some(i) => [Hint001(HintPatterns[i])]
  }

  /** `checkReadmeHints`. */
  method CheckReadmeHints(ws: Workspace, artifacts: Artifacts) returns (findings: seq<Finding>)
    ensures findings == ReadmeHints(ws, artifacts.readme)
  {
    findings := [];
    var readme := artifacts.readme;
    if readme.None? || !readme.value.found {
      return;
    }
    if readme.value.path !in ws.contents {
      return;
    }
    var text := ToLower(ws.contents[readme.value.path]);
    var hit := FindFirst(HintPatterns, p => Contains(text, p));
    if hit.Some? {
      findings := findings + [Hint001(HintPatterns[hit.value])];
    }
    assert ReadmeText(ws, readme) == Some(text);
  }

  /**
   * At most one hint: it names a pattern the lower-cased README contains, and no pattern listed before it
   * occurs; there is none exactly when no pattern occurs (or there is no readable README).
   */
  lemma ReadmeHintsMeaning(ws: Workspace, readme: Option<Artifact>)
    ensures |ReadmeHints(ws, readme)| <= 1
    ensures ReadmeText(ws, readme).None? ==> ReadmeHints(ws, readme) == []
    ensures ReadmeText(ws, readme).Some? ==>
              var text := ReadmeText(ws, readme).value;
              && (ReadmeHints(ws, readme) == [] <==> forall i | 0 <= i < |HintPatterns| :: !Contains(text, HintPatterns[i]))
              && (forall k | 0 <= k < |HintPatterns| && Contains(text, HintPatterns[k]) ::
                    (forall j | 0 <= j < k :: !Contains(text, HintPatterns[j])) ==> ReadmeHints(ws, readme) == [Hint001(HintPatterns[k])])
  {
    if ReadmeText(ws, readme).Some? {
      var text := ReadmeText(ws, readme).value;
      var matches := p => Contains(text, p);
      forall k | 0 <= k < |HintPatterns| && Contains(text, HintPatterns[k]) && forall j | 0 <= j < k :: !Contains(text, HintPatterns[j])
        ensures ReadmeHints(ws, readme) == [Hint001(HintPatterns[k])]
      {
        assert matches(HintPatterns[k]);
        assert First(HintPatterns, matches) == Some(k);
      }
      if ReadmeHints(ws, readme) == [] {
        assert First(HintPatterns, matches).None?;
      }
    }
  }

  /** `docker compose up` is looked for first: a README that contains it always gets that hint. */
  lemma ComposeHintFirst(ws: Workspace, readme: Option<Artifact>)
    requires ReadmeText(ws, readme).Some? && Contains(ReadmeText(ws, readme).value, "docker compose up")
    ensures ReadmeHints(ws, readme) == [Hint001("docker compose up")]
  {
    var text := ReadmeText(ws, readme).value;
    assert First(HintPatterns, p => Contains(text, p)) == Some(0);
  }
}
