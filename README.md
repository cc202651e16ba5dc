# devcheck, modelled in Dafny

devcheck scans a project directory and tells a developer whether it is ready to run locally. It
locates the project's artifacts: compose files, `.env` files and their examples, language
manifests, a README and a Makefile. It then runs a fixed sequence of checks over them, each check
appending typed findings. The ignore list of `.devcheck.yaml` removes some codes, the chosen
profile keeps findings by severity and code, and the report counts what is left. A separate
reporter turns the suggested fixes into a shell script.

This project models that decision logic. The file system is a value (`FileSystem.Workspace`)
holding the readable files' text, the existing files and directories, the top-level listing, the
decoded compose services and the walk order. Everything the scanner does with it is stated and
proved:

- **Detector** is the artifact locator. Override precedence, candidate priority and
  first-found-wins for the language and package manager hold. Its methods update a shared
  `Artifacts` object in place.
- **EnvFiles** is the `KEY=VALUE` parser.
- **ComposeRefs**, **EnvExample**, **DependsOn**, **BuildContexts**, **InfoChecks**,
  **SourceScan** and **ConfigChecks** are the individual checks: ENV001, ENV002/ENV003, CMP001,
  BUILD001/BUILD002, LANG001/HINT001, SRC001, TOOL001/TOOL002, CUSTOM-<id> and REQ001, and the
  ignore filter.
- **Checker** is their fixed-order composition.
- **Tools** is the version comparator and the version checks.
- **FindingModel**, **ReportModel**, **Profiles**, **ConfigModel** and **ArtifactModel** are the
  severity scale, finding builder, report summary, profile filter, configuration and artifact
  queries.
- **ScanCommand** is the scan pipeline.
- **Checklist** is the fix-script generator.

Every loop of the Go code is a Dafny method with loop invariants, proved equal to a function of
its inputs; the lemmas then state what that function means. Where the Go code ranges over a map,
the method returns a ghost `order` that lists every key exactly once (`Seqs.Enumerates`). The
results are stated for that order, and the lemmas hold for any such order.

Where the description of the system and the code differ, the model follows the code:

- ENV002 compares only against a found env file named exactly `.env` or `.env.local`.
- A fix mentioning `.env.local` still gets an `echo … >> .env` line.
- The fix script's `mkdir` branch is taken by any "Create …" fix that contains the word
  "directory", as the reporter tests it; the intended routing is modelled beside it (see Findings).
- `os.Stat` below an existing regular file fails with ENOTDIR, which `os.IsNotExist` does not
  report, so such a path gives no BUILD001 or BUILD002 (`FileSystem.NotExist`).

## Model

| member | source | states |
|---|---|---|
| ArtifactModel.AnyFound | internal/models/artifact.go:60-87 | the scan shared by the three `Has*` queries is true exactly when some artifact of the list has `found` set |
| ArtifactModel.Artifacts.NewArtifacts | internal/models/artifact.go:49-57 | a new collection has four empty lists, no README, no Makefile, no language and no package manager, so none of the `Has*` queries holds |
| ArtifactModel.Artifacts.HasCompose | internal/models/artifact.go:59-67 | true exactly when some compose file was found |
| ArtifactModel.Artifacts.HasEnv | internal/models/artifact.go:69-77 | true exactly when some `.env` file was found |
| ArtifactModel.Artifacts.HasEnvExample | internal/models/artifact.go:79-87 | true exactly when some env example was found |
| FindingModel.SeverityLevel | internal/models/finding.go:56-68 | the level lies in 0..3, is 3, 2, 1 exactly for blocking, warning, info, and 0 exactly for an unrecognised severity |
| FindingModel.SeverityOrder | internal/models/finding.go:56-68 | blocking > warning > info > 0, and every unrecognised severity ranks below info |
| FindingModel.FindingRef.NewFinding | internal/models/finding.go:29-36 | a new finding has only code, severity and title set; details, files and fix are empty |
| FindingModel.FindingRef.WithDetails | internal/models/finding.go:38-42 | overwrites the details, changes nothing else and returns the same object |
| FindingModel.FindingRef.WithFile | internal/models/finding.go:44-48 | appends one location (line given, column 0) after the existing ones, changes nothing else and returns the same object |
| FindingModel.FindingRef.WithFix | internal/models/finding.go:50-54 | overwrites the suggested fix, changes nothing else and returns the same object |
| ReportModel.CountSeverity | internal/models/report.go:20-33 | a per-severity count never exceeds the number of findings |
| ReportModel.CountRecognized | internal/models/report.go:20-33 | the number of findings with a recognised severity never exceeds the number of findings |
| ReportModel.SummaryCountsAddUp | internal/models/report.go:20-33 | the total is the number of findings; the three counts add up to the recognised findings, so to at most the total, and to exactly the total when every severity is recognised |
| ReportModel.CountPositive | internal/models/report.go:35-38 | a severity count is positive exactly when some finding has that severity |
| ReportModel.AtLeastSubsequence | internal/models/report.go:40-50 | the severity filter keeps the findings in their original order: its result is a subsequence of the findings |
| ReportModel.AtLeastMembers | internal/models/report.go:40-50 | a finding survives the filter exactly when it is in the report and its level is at or above the threshold |
| ReportModel.Report.constructor | internal/models/report.go:11-17 | a new report holds the given path, artifacts and findings, with a zero summary |
| ReportModel.Report.CalculateSummary | internal/models/report.go:19-33 | the summary is reset and recounted from the findings, and nothing else changes |
| ReportModel.Report.HasBlocking | internal/models/report.go:35-38 | when the summary is current, true exactly when some finding is blocking |
| ReportModel.Report.FilterBySeverity | internal/models/report.go:40-50 | returns the findings whose level is at or above the threshold's, in order, without changing the report |
| ConfigModel.Config.ShouldIgnoreCode | internal/config/config.go:99-107 | a code is ignored exactly when it equals some entry of the ignore list: exact, case-sensitive, no prefix matching |
| ConfigModel.IgnoredFrom | internal/config/config.go:100-106 | the early-exit scan is true exactly when the code is in the list |
| ConfigModel.DefaultIgnoresNothing | internal/config/config.go:50-57 | the default configuration ignores no code |
| ConfigModel.FirstExisting | internal/config/config.go:69-73 | the candidate chosen is the first one, in priority order, that exists; there is none exactly when no candidate exists |
| ConfigModel.Load | internal/config/config.go:59-92 | with no candidate file present the result is the default configuration; otherwise it is whatever reading the first present candidate gives, its error included |
| Profiles.Contains | internal/profiles/profiles.go:104-111 | the search loop reports true exactly when the string is in the list |
| Profiles.Profile.FilterFindings | internal/profiles/profiles.go:75-102 | returns exactly the findings that pass the four tests (threshold, info switch, enabled list, disabled list), in input order |
| Profiles.KeptSubsequence | internal/profiles/profiles.go:76-102 | the profile filter is order-preserving: its output is a subsequence of its input |
| Profiles.KeptMembers | internal/profiles/profiles.go:79-98 | a finding is kept exactly when it is in the input and passes all four tests, in particular its level is at least the profile's minimum |
| Profiles.KeptAllPass | internal/profiles/profiles.go:79-98 | a list every element of which passes the four tests comes back unchanged |
| Profiles.KeptIdempotent | internal/profiles/profiles.go:76-102 | filtering twice with the same profile gives the same list as filtering once |
| Profiles.Get | internal/profiles/profiles.go:22-64 | a profile is returned exactly for the five built-in names, under its own name and with no enabled or disabled check lists; any other name gives none |
| Profiles.BuiltinDropsUnrecognized | internal/profiles/profiles.go:23-59 | no built-in profile keeps a finding whose severity is unrecognised (also profiles.go line 81) |
| Profiles.MinimalKeepsBlocking | internal/profiles/profiles.go:45-51 | `minimal` keeps a finding exactly when it is blocking (also profiles.go line 81) |
| Profiles.CIKeepsBlockingAndWarning | internal/profiles/profiles.go:38-44 | `ci` keeps a finding exactly when it is blocking or a warning (also profiles.go lines 81-88) |
| Profiles.NoInfoWithoutIncludeInfo | internal/profiles/profiles.go:85-88 | a profile that excludes info drops every info finding, whatever its threshold |
| Profiles.CheckCodeTests | internal/profiles/profiles.go:90-96 | a disabled code never survives, and with a non-empty enabled list no unlisted code does |
| Tools.SegmentValue | internal/tools/tools.go:187-193 | a piece's value is never negative and never above the 64-bit maximum, and it is 0 when the piece trimmed of non-digits at both ends is empty or still holds a non-digit |
| Tools.Pieces | internal/tools/tools.go:183-184 | a version always has at least one piece after the leading "v" is dropped and it is split at dots |
| Tools.Values | internal/tools/tools.go:185-194 | one value per piece |
| Tools.ParseVersion | internal/tools/tools.go:181-197 | returns the value of each dot-separated piece, in order, after one leading "v" is dropped |
| Tools.Compare3 | internal/tools/tools.go:161-178 | the result is -1, 0 or 1, and -1, 0, 1 exactly when the first three segments (missing ones as 0) are lexicographically below, equal, above |
| Tools.CompareVersions | internal/tools/tools.go:155-179 | returns the lexicographic comparison of the first three numeric segments of the two versions |
| Tools.CompareSegments | internal/tools/tools.go:161-178 | the segment loop with early returns computes the same comparison as the lexicographic order on triples |
| Tools.OrderValues | internal/tools/tools.go:155-156 | the comparison only ever yields -1, 0 or 1 |
| Tools.OrderReflexive | internal/tools/tools.go:161-178 | every version compares equal to itself |
| Tools.OrderAntisymmetric | internal/tools/tools.go:161-178 | swapping the arguments negates the result |
| Tools.OrderTransitive | internal/tools/tools.go:161-178 | both the strict and the non-strict order are transitive |
| Tools.Compare3Transitive | internal/tools/tools.go:161-178 | the triple comparison is transitive, strictly and non-strictly |
| Tools.PiecesAppend | internal/tools/tools.go:183-184 | appending "." and a dot-free piece to a version appends that piece to its pieces |
| Tools.AppendSegment | internal/tools/tools.go:183-194 | appending "." and a dot-free piece appends that piece's value to the segments |
| Tools.DigitsPiece | internal/tools/tools.go:189-192 | a digit string within range is its own trimmed piece and has its decimal value |
| Tools.TrailingZeroEqual | internal/tools/tools.go:162-169 | a missing segment counts as 0: every version equals itself with ".0" appended, so "1.2" equals "1.2.0" |
| Tools.FourthSegmentIgnored | internal/tools/tools.go:161 | once a version has three segments, any further piece is ignored, so "1.2.3.4" equals "1.2.3" and "1.2.3.9" |
| Tools.ThreeDigitPieces | internal/tools/tools.go:181-197 | a version made of three digit strings has their three decimal values as its segments |
| Tools.NumericNotTextual | internal/tools/tools.go:170-175 | segments compare as numbers, not text: "20.10.0" is newer than "20.9.9" |
| Tools.CheckTool | internal/tools/tools.go:127-149 | the check for one requirement names that tool and that minimum |
| Tools.CheckToolMeaning | internal/tools/tools.go:127-149 | an absent or unavailable tool is neither available nor satisfied and carries the probe's error or "tool not found"; otherwise the check reports the installed version and is satisfied exactly when it compares at or above the minimum |
| Tools.CheckVersions | internal/tools/tools.go:117-153 | visits every requirement key once, in some order, and returns the checks of the keys with a non-empty minimum in that order |
| Tools.ChecksFromRequirements | internal/tools/tools.go:122-150 | every result belongs to a visited requirement with a non-empty minimum and is that requirement's check |
| Tools.ChecksCount | internal/tools/tools.go:122-150 | a tool is reported as often as it is visited when its minimum is non-empty, and never otherwise |
| Tools.DistinctCount | internal/tools/tools.go:122 | a visit order without repeats visits a key at most once |
| Tools.CheckVersionsOnePerTool | internal/tools/tools.go:117-153 | whatever the map order, each tool with a non-empty minimum is reported exactly once and no other tool is reported |
| Detector.Paths | internal/detector/detector.go:42-46 | one path per recorded artifact (also detector.go lines 66-70) |
| Detector.ExistingMeaning | internal/detector/detector.go:62-72 | the candidates kept are exactly the existing ones, in candidate order, each a found artifact of the given kind (also detector.go lines 127-137) |
| Detector.ProbedMeaning | internal/detector/detector.go:117-125 | every candidate is recorded once, in order, with whether it exists |
| Detector.FirstExistingNone | internal/detector/detector.go:225-235 | there is no README (no Makefile) exactly when none of the candidate names exists (also detector.go lines 246-256) |
| Detector.FirstExistingWins | internal/detector/detector.go:225-235 | the first existing candidate in preference order is the one recorded (also detector.go lines 246-256) |
| Detector.DetectComposeFiles | internal/detector/detector.go:33-73 | appends the override (with its found flag) when one is given, stops there when it exists, and otherwise appends the existing standard names in order |
| Detector.ComposeDetectedMeaning | internal/detector/detector.go:36-72 | a given override comes first with its found flag; when it exists it is the only compose file; some compose file is found exactly when the override or a standard name exists |
| Detector.DetectEnvFiles | internal/detector/detector.go:75-138 | with overrides, appends each override to the examples when it mentions "example" and to the env files otherwise, and consults no standard name; without overrides, appends all four standard env names with their found flags and the existing standard example names |
| Detector.SortOverrides | internal/detector/detector.go:78-99 | each override is appended once, to the examples when it mentions "example" and to the env files otherwise, with its found flag, in order |
| Detector.ProbeEnvCandidates | internal/detector/detector.go:103-125 | the four standard env names are appended, in order, each with whether it exists |
| Detector.ProbeExampleCandidates | internal/detector/detector.go:110-137 | the existing standard example names are appended, in order |
| Detector.PathsSnoc | internal/detector/detector.go:42-46 | recording at most one more artifact appends its path |
| Detector.PathsMembers | internal/detector/detector.go:42-46 | every recorded path belongs to a recorded artifact |
| Detector.OverrideEnvFilesMeaning | internal/detector/detector.go:85-97 | the env files taken from the overrides are exactly the overrides not mentioning "example", in order, each with whether it exists |
| Detector.OverrideExamplesMeaning | internal/detector/detector.go:85-97 | the examples taken from the overrides are exactly the overrides mentioning "example", in order, each with whether it exists |
| Detector.OverridesPartitioned | internal/detector/detector.go:79-98 | each override lands in exactly one of the two lists |
| Detector.OverridesRecorded | internal/detector/detector.go:79-98 | every override is recorded with its found flag among the examples when it mentions "example", among the env files otherwise, whether or not it exists |
| Detector.CustomEnvFilesFound | internal/detector/detector_test.go:145-174 | two existing custom env files given as overrides (such as ".env.custom" and ".env.prod") are both recorded as found env files |
| Detector.StandardEnvFiles | internal/detector/detector.go:103-125 | without overrides the env files are exactly the four standard names, in order, each with whether it exists |
| Detector.FirstGlobMeaning | internal/detector/detector.go:180-186 | a `*` pattern's hit is the first listed name that matches it, and there is none exactly when no listed name matches |
| Detector.LookupManifest | internal/detector/detector.go:177-191 | a row is found exactly when it is present (a matching listed name for a pattern, an existing file otherwise), and the recorded path is the match or the file itself |
| Detector.DetectRow | internal/detector/detector.go:177-211 | a present row appends one found manifest with its language and description, sets the language if it was still empty and the package manager if the row names one and it was still empty; an absent row changes nothing |
| Detector.DetectRows | internal/detector/detector.go:176-212 | after the loop the manifests are those of the present rows in table order, and the language and package manager are settled first-wins |
| Detector.RowsPrefix | internal/detector/detector.go:176-212 | one more row extends the manifests by its own artifact and applies one first-wins step to the language and the package manager |
| Detector.DetectManifests | internal/detector/detector.go:140-213 | fills the manifests, the language and the package manager from the fifteen-row table as `DetectRows` states |
| Detector.ManifestsBound | internal/detector/detector.go:176-212 | at most one manifest per row |
| Detector.ManifestsProvenance | internal/detector/detector.go:193-200 | every recorded manifest is found and comes from a present row, carrying that row's language and description |
| Detector.ManifestsPresent | internal/detector/detector.go:193-200 | every present row contributes its manifest |
| Detector.SettledMeaning | internal/detector/detector.go:202-210 | first present row wins: a value already set is kept; from empty, the value is that of the first present row with a non-empty value, and stays empty exactly when there is none |
| Detector.LanguageOfFirstManifest | internal/detector/detector.go:202-205 | when every row names a language, the detected language is that of the first recorded manifest, and is empty exactly when no manifest was recorded |
| Detector.TableLanguageOfFirstManifest | internal/detector/detector.go:148-205 | for the real table, the detected language is always that of the first manifest found |
| Detector.OnlyRowPresent | internal/detector/detector_test.go:65-115 | when exactly one row is present, the language and the package manager are that row's |
| Detector.DetectReadme | internal/detector/detector.go:215-236 | sets the README to the first existing name in preference order, and leaves it untouched when none exists |
| Detector.DetectMakefile | internal/detector/detector.go:238-257 | sets the Makefile to the first existing name in preference order, and leaves it untouched when none exists |
| Detector.Detect | internal/detector/detector.go:11-31 | a fresh collection holds the compose files, env files, examples, manifests, language, package manager, README and Makefile the five steps determine from empty |
| Detector.DetectFiles | internal/detector/detector.go:15-19 | the compose step, then the env step, each appending what it determines |
| Detector.DetectProject | internal/detector/detector.go:21-28 | the manifest, README and Makefile steps, each as stated on its own |
| Checklist.FixCommand | internal/reporter/checklist.go:124-166 | the line a fix becomes is non-empty, ends with a newline and is an `echo`, `cp`, `mkdir -p`, `touch` or `# TODO:` line; a "Create …" fix goes to the `mkdir` branch whenever it mentions "directory" |
| Checklist.FixCommandIntended | internal/reporter/checklist.go:150-161 | the corrected routing, where only "Create directory …" makes a directory, still gives a non-empty line of one of the five kinds ending with a newline |
| Checklist.ShellScript | internal/reporter/checklist.go:108-116 | the script always starts with the fixed shebang, the two comment lines and `set -e`, each block followed by a blank line |
| Checklist.ShellScriptIntended | internal/reporter/checklist.go:107-172 | the script with the corrected routing starts with the same header |
| Checklist.RoutingsAgree | internal/reporter/checklist.go:150-161 | the reporter's routing and the corrected one give the same line exactly when the fix is not a "Create …" fix that mentions "directory" without starting with "Create directory " |
| Checklist.ScriptsAgree | internal/reporter/checklist.go:117-169 | when no fix of the report is misrouted, the reporter's script is the intended one |
| Checklist.GenerateShellScript | internal/reporter/checklist.go:107-172 | the builder's final text is the header followed by the block of every finding, in input order |
| Checklist.WriteBlocks | internal/reporter/checklist.go:117-169 | the loop appends to the builder the blocks of all findings, in order |
| Checklist.WriteBlock | internal/reporter/checklist.go:118-168 | a finding without a fix appends nothing; one with a fix appends its heading, its command line and a blank line |
| Checklist.BlocksAppend | internal/reporter/checklist.go:117-169 | the script of two lists of findings is the blocks of the first followed by those of the second |
| Checklist.FixlessBlocks | internal/reporter/checklist.go:118-120 | findings whose block is empty leave no trace: filtering them out first gives the same blocks |
| Checklist.FixlessIgnored | internal/reporter/checklist.go:118-120 | findings without a suggested fix contribute nothing: the script equals that of the findings that have one |
| Checklist.NoFixesHeaderOnly | internal/reporter/checklist.go:111-120 | a report none of whose findings suggests a fix yields exactly the header |
| Checklist.FindingBlockShape | internal/reporter/checklist.go:122-168 | a finding with a fix adds, after the blocks before it, its `# [code] title` line, then its command line, then a blank line |
| Checklist.BlockEndsBlank | internal/reporter/checklist.go:166-168 | the block of a finding with a fix ends with a blank line |
| Checklist.EchoFix | internal/reporter/checklist.go:127-137 | "Add V to .env file" with a non-empty, space-free V becomes `echo 'V' >> .env` |
| Checklist.RequiredVariableEcho | internal/checker/checker.go:119 | the fix suggested for an undefined variable, "Add NAME=<value> to .env file", becomes `echo 'NAME=<value>' >> .env` for a space-free NAME (also checker.go lines 469, 687) |
| Checklist.CopyFix | internal/reporter/checklist.go:138-149 | "Copy X to Y" with a space-free X and no further " to " becomes `cp X Y`, Y cut at the first " and " and trimmed |
| Checklist.CopyWithoutTarget | internal/reporter/checklist.go:138-149 | a "Copy …" fix whose rest has no " to " does not split into two parts and is kept, unchanged, as a TODO |
| Checklist.EnvFromExampleFix | internal/checker/checker.go:153 | the fix suggesting to create `.env` from its example becomes `cp .env.example .env` |
| Checklist.MkdirFix | internal/checker/checker.go:551 | "Create directory D or …" with a space-free D becomes `mkdir -p D` |
| Checklist.TouchFix | internal/checker/checker.go:539 | "Create F in C or …" that does not mention "directory", with a space-free F and a space-free C not starting with 'o', becomes `touch F` |
| Checklist.InstallIsTodo | internal/reporter/checklist.go:162-163 | an "Install …" fix is never turned into a command but kept as a TODO |
| Checklist.UnrecognisedIsTodo | internal/reporter/checklist.go:164-165 | a fix in none of the recognised forms is kept as a TODO |
| Checklist.CreateAsWrittenMisroutes | internal/reporter/checklist.go:150-161 | a missing-Dockerfile fix whose build context mentions "directory" is turned by the reporter into `mkdir -p` of the whole sentence up to " or ", while the corrected routing touches the Dockerfile |
| EnvFiles.ParseEnvFile | internal/checker/checker.go:311-341 | the scanning loop returns exactly the entries of the file's lines applied in order, and an empty map for a file that cannot be opened |
| EnvFiles.ParsedAt | internal/checker/checker.go:322-338 | every line is parsed on its own, independently of the lines around it |
| EnvFiles.ParseLineMeaning | internal/checker/checker.go:323-337 | a line yields an assignment exactly when, trimmed, it is non-empty, not a `#` comment and holds `=`; the key then holds no `=` and no surrounding white space, and the value no surrounding quote |
| EnvFiles.KeyHasNoEquals | internal/checker/checker.go:330-332 | the key is cut at the first `=`, so it never contains one |
| EnvFiles.ApplyKeys | internal/checker/checker.go:336 | a key is in the result exactly when some assignment names it |
| EnvFiles.ApplyLastWins | internal/checker/checker.go:336 | a key keeps the value of its last assignment |
| EnvFiles.EnvOfKeys | internal/checker/checker.go:311-341 | a key is defined by an env file exactly when one of its lines assigns it |
| EnvFiles.EnvOfLastWins | internal/checker/checker.go:311-341 | a key repeated in a file has the value of the last line that assigns it |
| EnvFiles.TrimNothing | internal/checker/checker.go:323 | trimming text that neither starts nor ends with a trimmed character leaves it unchanged |
| EnvFiles.CutAfterKey | internal/checker/checker.go:330 | splitting `KEY=VALUE` at the first `=` gives back KEY and VALUE when KEY holds no `=` |
| EnvFiles.ParseRendered | internal/checker/checker.go:322-338 | round trip: the line `KEY=VALUE` parses back to the pair for a plain key and value |
| EnvFiles.Unquote | internal/checker/checker.go:335 | stripping the quotes of `"VALUE"` gives VALUE back |
| EnvFiles.ParseQuoted | internal/checker/checker.go:322-338 | round trip: `KEY="VALUE"` parses back to the pair, without the quotes |
| EnvFiles.CommentLine | internal/checker/checker.go:325-327 | a line starting with `#` is skipped |
| EnvFiles.CommentBlankAndQuoted | internal/checker/checker.go:311-341 | a comment, an assignment, a blank line and a quoted assignment give exactly the two pairs |
| EnvFiles.BasicFixture | internal/checker/checker.go:311-341 | the parser's basic fixture yields DATABASE_HOST=localhost and API_KEY=test-key, and nothing else |
| EnvFiles.StandardVarExamples | internal/checker/checker.go:371-385 | HOME and PATH are standard variables, CUSTOM_VAR and DATABASE_URL are not |
| EnvFiles.FoundUnionMeaning | internal/checker/checker.go:80-88 | a name is collected exactly when some found artifact provides it |
| EnvFiles.DefinedNamesMeaning | internal/checker/checker.go:80-88 | a name counts as defined exactly when some env file marked found assigns it; the others are never read |
| EnvFiles.CollectDefinedVars | internal/checker/checker.go:80-88 | the loop collects every key of every found env file, and nothing more |
| ComposeRefs.RunEndFacts | internal/checker/checker.go:91 | a run of name characters is maximal: all of it matches, the next character does not |
| ComposeRefs.RunEndShift | internal/checker/checker.go:91 | where a run ends does not depend on the text before it |
| ComposeRefs.MatchAt | internal/checker/checker.go:91 | a match at a position ends after it and within the line |
| ComposeRefs.RefsWellFormed | internal/checker/checker.go:91 | every captured name is non-empty and holds neither `}` nor `:` (also checker.go lines 108-111) |
| ComposeRefs.NoOpenerNoRefs | internal/checker/checker.go:91 | a line with no `${` holds no reference (also checker.go line 108) |
| ComposeRefs.MatchShift | internal/checker/checker.go:91 | a match does not depend on the text before its position |
| ComposeRefs.RefsShift | internal/checker/checker.go:108 | the matches found from a position do not depend on the text before it |
| ComposeRefs.RunEndAll | internal/checker/checker.go:91 | a run covering all of a span that is followed by a non-matching character ends there |
| ComposeRefs.PlainPlaceholder | internal/checker/checker.go:91 | `${NAME}` is one reference to NAME, and matching goes on after it (also checker.go lines 108-111) |
| ComposeRefs.DefaultPlaceholder | internal/checker/checker.go:91 | `${NAME:-DEFAULT}` is one reference to NAME, not to the default (also checker.go lines 108-111) |
| ComposeRefs.Env001Injective | internal/checker/checker.go:113-119 | different names, files or lines give different ENV001 findings |
| ComposeRefs.Env001s | internal/checker/checker.go:109-123 | one finding per reported name |
| ComposeRefs.Env001sAt | internal/checker/checker.go:109-123 | the i-th finding is the ENV001 of the i-th reported name |
| ComposeRefs.UnresolvedCount | internal/checker/checker.go:109-123 | no deduplication: a name neither defined nor standard that a line references k times is reported k times, other names never |
| ComposeRefs.UnresolvedMembers | internal/checker/checker.go:112 | the reported names are exactly the referenced names that are neither defined nor standard |
| ComposeRefs.NameFindingsMembers | internal/checker/checker.go:109-123 | the findings of a line are exactly one ENV001 per reportable reference on it |
| ComposeRefs.NameFindingsSnoc | internal/checker/checker.go:109-123 | one more reference adds its finding exactly when it is reportable |
| ComposeRefs.LineFindingsMembers | internal/checker/checker.go:103-125 | a finding of a compose file belongs to one of its lines and carries that line's 1-based number |
| ComposeRefs.LineFindingsMeaning | internal/checker/checker.go:103-125 | a compose file's findings are exactly the ENV001s of its reportable references, each at its 1-based line |
| ComposeRefs.RefFindingsMembers | internal/checker/checker.go:93-126 | only found and readable compose files give findings |
| ComposeRefs.CheckLineRefs | internal/checker/checker.go:108-124 | the match loop yields the ENV001s of the reportable references of the line, in order |
| ComposeRefs.CheckFileRefs | internal/checker/checker.go:103-125 | the line loop yields the findings of all lines, numbered from 1 |
| ComposeRefs.CheckComposeEnvRefs | internal/checker/checker.go:76-129 | the check yields, file by file and line by line, the ENV001s of the references no found env file defines |
| EnvExample.Env002s | internal/checker/checker.go:176-186 | one ENV002 per missing key |
| EnvExample.CompareKeys | internal/checker/checker.go:176-189 | the key loop visits every example key exactly once, in some order, and yields one ENV002 per visited key the env file lacks, in that order |
| EnvExample.CompareExample | internal/checker/checker.go:159-190 | the first found example is compared with the first found `.env` or `.env.local`; with either missing nothing is reported |
| EnvExample.CheckEnvExample | internal/checker/checker.go:131-192 | the check's findings are the ENV003 or ENV002 findings its case calls for, for an iteration order that enumerates the compared example's keys |
| EnvExample.Env002sMembers | internal/checker/checker.go:176-186 | the ENV002 list holds one finding per listed key and nothing else |
| EnvExample.MissingKeysEnumerate | internal/checker/checker.go:176-178 | visiting every example key once visits every missing key once |
| EnvExample.ComparedFindingsMeaning | internal/checker/checker.go:159-190 | whatever the map order, there are exactly as many ENV002 findings as example keys the env file lacks, one naming each of them |
| EnvExample.ExampleFindingsCases | internal/checker/checker.go:136-190 | no found example gives nothing; an example without any env file gives exactly the ENV003 naming the first found example; a found env file named neither `.env` nor `.env.local` gives nothing |
| DependsOn.ScalarValues | internal/checker/checker.go:353-360 | a list yields at most one dependency per item |
| DependsOn.ExtractDependsOn | internal/checker/checker.go:344-369 | the dependencies of a `depends_on` node: a list's scalar items, a mapping's keys (every even position), nothing for an empty or other node |
| DependsOn.ScalarValuesMembers | internal/checker/checker.go:353-360 | a list's dependencies are exactly its scalar items |
| DependsOn.KeysBelowMembers | internal/checker/checker.go:363-367 | a mapping gives one dependency per even position, and exactly the values found there |
| DependsOn.Cmp001Dependency | internal/checker/checker.go:228-235 | within one file, a CMP001 determines the dependency it reports |
| DependsOn.Cmp001s | internal/checker/checker.go:226-238 | one CMP001 per unknown dependency |
| DependsOn.Cmp001sMembers | internal/checker/checker.go:226-238 | the CMP001 list holds one finding per listed dependency and nothing else |
| DependsOn.UnknownSnoc | internal/checker/checker.go:227-228 | one more dependency adds its finding exactly when it names no service |
| DependsOn.DependsFindingsSnoc | internal/checker/checker.go:198-239 | one more compose file adds the findings of its services |
| DependsOn.CheckServiceDeps | internal/checker/checker.go:226-238 | the dependency loop yields one CMP001 per dependency naming no service of the file, in order |
| DependsOn.CheckServices | internal/checker/checker.go:218-239 | the service loop visits every service once, in some order, and yields the findings of each in that order |
| DependsOn.CheckComposeDependsOn | internal/checker/checker.go:195-242 | the check yields, compose file by compose file, the findings of its services; files not found, unreadable or not decodable add nothing |
| DependsOn.CheckComposeFile | internal/checker/checker.go:198-216 | a file not found, unreadable or not decodable adds nothing |
| DependsOn.DependsFindingsPrefix | internal/checker/checker.go:198-239 | the findings of the first c+1 files are those of the first c followed by those of file c |
| DependsOn.ServiceFindingsMembers | internal/checker/checker.go:225-238 | a service's findings are one CMP001 per dependency naming no service of the file |
| DependsOn.ServicesFindingsMembers | internal/checker/checker.go:218-239 | whatever the map order, a file's findings are exactly one CMP001 per service and per dependency of it naming no service of the file |
| DependsOn.KnownNeverReported | internal/checker/checker.go:218-228 | a dependency on a service of the same file, a service depending on itself included, is never reported |
| DependsOn.DependsFindingsMembers | internal/checker/checker.go:197-239 | every finding of the check comes from the services of one of the compose files |
| BuildContexts.BuildFindingsSnoc | internal/checker/checker.go:486-555 | one more compose file adds the findings of its services |
| BuildContexts.CheckServiceBuild | internal/checker/checker.go:505-554 | one service gives the BUILD001/BUILD002 findings its build value calls for, each on `os.IsNotExist` of its `os.Stat`: none without a build or with an empty context |
| BuildContexts.CheckServicesBuild | internal/checker/checker.go:505-555 | the service loop visits every service once, in some order, and yields the findings of each in that order |
| BuildContexts.CheckBuildContexts | internal/checker/checker.go:483-557 | the check yields, compose file by compose file, the findings of its services; files not found, unreadable or not decodable add nothing |
| BuildContexts.CheckBuildFile | internal/checker/checker.go:486-503 | a file not found, unreadable or not decodable adds nothing |
| BuildContexts.BuildFindingsPrefix | internal/checker/checker.go:486-555 | the findings of the first c+1 files are those of the first c followed by those of file c |
| BuildContexts.ServiceBuildCodes | internal/checker/checker.go:510-553 | a service gives at most two findings: none without a context; a BUILD001 exactly when `os.Stat` of the Dockerfile fails with "does not exist"; a BUILD002 exactly when that holds for the context; BUILD001 first |
| BuildContexts.MissingContextGivesBoth | internal/checker/checker.go:530-553 | when every existing file's directory exists, a context that does not exist gives both BUILD001 and BUILD002, in that order |
| BuildContexts.RegularContextGivesNothing | internal/checker/checker.go:530-553 | a context that is an existing regular file gives no finding: the Dockerfile test fails with ENOTDIR, which is not "does not exist", and the context exists |
| BuildContexts.ServicesBuildMembers | internal/checker/checker.go:505-555 | whatever the map order, a file's findings are those of its services |
| BuildContexts.BuildFindingsMembers | internal/checker/checker.go:486-555 | every finding of the check comes from the services of one of the compose files |
| InfoChecks.LanguageInfo | internal/checker/checker.go:245-262 | exactly one Info finding LANG001 when a language was detected, none otherwise |
| InfoChecks.LanguageTitleParts | internal/checker/checker.go:249-252 | the LANG001 text names the language and, exactly when one is known, ends with the package manager |
| InfoChecks.CheckReadmeHints | internal/checker/checker.go:265-309 | the check yields the hint of the first pattern the lower-cased README contains, or nothing |
| InfoChecks.ReadmeHintsMeaning | internal/checker/checker.go:265-309 | at most one HINT001; none without a readable README or when no pattern occurs; otherwise the hint of the first pattern, in the listed priority, that occurs |
| InfoChecks.ComposeHintFirst | internal/checker/checker.go:282-283 | a README mentioning `docker compose up` gets that hint, whatever else it mentions (also checker.go lines 296-305) |
| SourceScan.ExtAt | internal/checker/checker.go:442 | the extension found scanning back is empty or a suffix of the path that starts with its only '.' and holds no '/' |
| SourceScan.Ext | internal/checker/checker.go:442-443 | `filepath.Ext` is empty or the suffix from the last '.' of the final path element |
| SourceScan.MatchOccs | internal/checker/checker.go:457-460 | one reference per captured name |
| SourceScan.Src001s | internal/checker/checker.go:463-469 | one SRC001 per report |
| SourceScan.ReportStep | internal/checker/checker.go:461-469 | reporting a new reportable name appends its SRC001 and records the name |
| SourceScan.FoldAppend | internal/checker/checker.go:455-474 | processing a concatenation of references processes its parts in turn |
| SourceScan.ScanMatches | internal/checker/checker.go:458-472 | the match loop keeps `findings` and `foundUndefined` equal to the SRC001s and names of the reports after the line's matches |
| SourceScan.ScanLine | internal/checker/checker.go:456-473 | the pattern loop processes the matches of the seven patterns in their listed order |
| SourceScan.ScanFile | internal/checker/checker.go:453-474 | the line loop processes the file's lines in order, numbered from 1 |
| SourceScan.ScanPath | internal/checker/checker.go:430-474 | directories, skipped directories' contents, other extensions and unreadable files add nothing |
| SourceScan.Walk | internal/checker/checker.go:430-477 | the walk processes the scanned files in walk order and its state tracks the reports |
| SourceScan.CheckSourceCodeEnvRefs | internal/checker/checker.go:388-480 | the check yields one SRC001 per report of the whole walk, in order |
| SourceScan.NamesMembers | internal/checker/checker.go:461-462 | a name is recorded exactly when some report has it (also checker.go line 427) |
| SourceScan.FoldGrows | internal/checker/checker.go:461-469 | processing references only appends reportable references, and the recorded names grow by exactly the reportable names referenced |
| SourceScan.FoldDistinct | internal/checker/checker.go:461-462 | `foundUndefined` keeps every name reported at most once (also checker.go line 427) |
| SourceScan.FirstOfSnoc | internal/checker/checker.go:461-462 | the first reference to a name in a longer list is an earlier first one or the new last one |
| SourceScan.FoldFirst | internal/checker/checker.go:461-469 | a reference is reported exactly when its name is reportable, not yet recorded, and no earlier reference has that name |
| SourceScan.Src001sMembers | internal/checker/checker.go:463-469 | each SRC001 is built from one report |
| SourceScan.SourceReportsMeaning | internal/checker/checker.go:388-480 | the walk reports each reportable name referenced exactly once, at its first reference in walk order, and never a defined or standard name |
| SourceScan.MatchOccsMembers | internal/checker/checker.go:457-460 | the references of a match list are its names, at the given file and line |
| SourceScan.PatternOccsMembers | internal/checker/checker.go:456-460 | the references of a line are the names any of the patterns captures on it |
| SourceScan.FileOccsMembers | internal/checker/checker.go:453-468 | the references of a file are the names captured on its lines, with 1-based line numbers |
| SourceScan.TreeOccsMembers | internal/checker/checker.go:430-460 | the references of the walk are the names captured on the lines of the scanned files of the tree |
| SourceScan.ExtAtSuffix | internal/checker/checker.go:442 | scanning back from within the extension finds it |
| SourceScan.ExtOfSuffix | internal/checker/checker.go:442-443 | a path ending in `.go`, `.py` or any other extension without '.' or '/' has that extension |
| SourceScan.EveryReferenceAccounted | internal/checker/checker.go:461-469 | every reference in a scanned file is defined, standard or reported |
| ConfigChecks.ToolRequirements | internal/checker/checker.go:563-579 | every requirement has a non-empty minimum version |
| ConfigChecks.ToolRequirementsMeaning | internal/checker/checker.go:563-579 | the five configurable tools each get an entry, with their configured minimum, exactly when that minimum is set; no other tool does |
| ConfigChecks.BuildRequirements | internal/checker/checker.go:563-579 | the field-by-field filling of the map gives exactly the requirements |
| ConfigChecks.CheckToolVersions | internal/checker/checker.go:560-601 | the findings are those of the version checks of the requirements, for an iteration order that visits each requirement once |
| ConfigChecks.ReportChecks | internal/checker/checker.go:583-598 | the loop yields, check by check in order, TOOL001 for an unavailable tool, otherwise TOOL002 for an unsatisfied one |
| ConfigChecks.ChecksComplete | internal/tools/tools.go:118-153 | every visited requirement with a non-empty minimum has its check among the results |
| ConfigChecks.ToolFindingCases | internal/checker/checker.go:583-598 | a required tool gives TOOL001 when absent or unavailable, TOOL002 when its version is older than the minimum, nothing otherwise |
| ConfigChecks.ChecksMembers | internal/checker/checker.go:581-598 | whatever the map order, the tool findings are those of one check per requirement with a non-empty minimum, and nothing else |
| ConfigChecks.ToolFindingsMembers | internal/checker/checker.go:560-601 | whatever the map order, the tool findings are those of the configured tools, one check each |
| ConfigChecks.RuleSeverity | internal/checker/checker.go:639-644 | a rule's severity is blocking exactly for "blocking", info exactly for "info", and a warning otherwise |
| ConfigChecks.AnyMatch | internal/checker/checker.go:628-634 | the `found` loop is true exactly when some defined name matches the pattern, whatever order it visits them in |
| ConfigChecks.CheckCustomRules | internal/checker/checker.go:604-659 | the check yields, rule by rule in order, the finding of every required rule whose pattern compiles and matches no defined name |
| ConfigChecks.CustomRulesMeaning | internal/checker/checker.go:619-656 | a custom-rule finding is exactly the finding of a listed rule that is required, compiles and matches no defined name |
| ConfigChecks.CustomFindingShape | internal/checker/checker.go:639-654 | a custom-rule finding is coded `CUSTOM-` plus the id of a required rule and has one of the three recognised severities |
| ConfigChecks.Req001Injective | internal/checker/checker.go:680-687 | different names give different REQ001 findings |
| ConfigChecks.CheckRequiredEnvVars | internal/checker/checker.go:662-692 | the check yields, in the listed order, one REQ001 per required name no found env file defines |
| ConfigChecks.ReportRequired | internal/checker/checker.go:679-689 | the loop yields one REQ001 per listed name not defined, in order |
| ConfigChecks.RequiredCount | internal/checker/checker.go:679-689 | a name not defined gives one REQ001 per time it is listed; a defined name gives none |
| ConfigChecks.RequiredMembers | internal/checker/checker.go:679-689 | every REQ001 names a listed name that is not defined, and every such name has one |
| ConfigChecks.FilterIgnoredFindings | internal/checker/checker.go:695-707 | the loop keeps exactly the findings whose code is not ignored, in order, and everything without an ignore list |
| ConfigChecks.FilterIgnoredMeaning | internal/checker/checker.go:695-707 | the filter preserves order, keeps exactly the findings whose code is not ignored, changes nothing without an ignore list, and is idempotent |
| Checker.RunCoreChecks | internal/checker/checker.go:33-49 | the six checks that always run contribute their findings in the fixed order: compose references, env example, depends_on, build contexts, language, README hints |
| Checker.RunOptionalChecks | internal/checker/checker.go:51-65 | the source scan runs only when enabled, the tool check only when enabled with configured tool versions, custom rules and required variables only with a configuration, in that order |
| Checker.CheckWithOptions | internal/checker/checker.go:29-73 | the result is all checks' findings in the fixed order, filtered by the ignore list when a configuration is given, for some iteration order of every Go map involved |
| Checker.Check | internal/checker/checker.go:24-27 | with the default options only the six core checks contribute, unfiltered |
| Checker.RefsRecognized | internal/checker/checker.go:113-119 | every ENV001 has a recognised severity |
| Checker.ExampleRecognized | internal/checker/checker.go:144-186 | every ENV002 and ENV003 has a recognised severity |
| Checker.DependsRecognized | internal/checker/checker.go:229-235 | every CMP001 has a recognised severity |
| Checker.BuildRecognized | internal/checker/checker.go:533-551 | every BUILD001 and BUILD002 has a recognised severity |
| Checker.ServiceBuildRecognized | internal/checker/checker.go:533-551 | the findings of one service have recognised severities |
| Checker.SourceRecognized | internal/checker/checker.go:463-469 | every SRC001 has a recognised severity |
| Checker.ToolRecognized | internal/checker/checker.go:583-598 | every TOOL001 and TOOL002 has a recognised severity |
| Checker.ConfigRecognized | internal/checker/checker.go:638-654 | every custom-rule and REQ001 finding has a recognised severity (also checker.go lines 680-687) |
| Checker.CheckedRecognized | internal/checker/checker.go:29-73 | every finding the checker returns is blocking, a warning or info |
| Checker.CheckedFiltered | internal/checker/checker.go:67-72 | with a configuration the result is the order-preserving subsequence of all findings whose code is not ignored; without one it is all findings |
| Checker.NoConfigNoOptionalChecks | internal/checker/checker.go:57-70 | without a configuration only the core checks and an enabled source scan contribute, unfiltered |
| ScanCommand.CheckWithProfile | cmd/scan.go:121-130 | the scan's findings are the checker's, run with the profile's source-scan switch and the configuration, then filtered by the profile |
| ScanCommand.NewReport | cmd/scan.go:132-140 | the report holds the path, artifacts and kept findings with their summary counted; `--strict` fails exactly when some kept finding is blocking (also scan.go lines 187-190) |
| ScanCommand.RunScan | cmd/scan.go:100-140 | without `--config`: the configuration `config.Load` finds among the existing paths, or the default one when it fails to load, leads to the counted report: detection honours the overrides, and the findings are those of the checks kept by the profile (also scan.go lines 187-190) |
| ScanCommand.ScanCountsAddUp | cmd/scan.go:118-140 | every finding of a scan has a recognised severity, so the three counts of the summary add up to the total |
| ScanCommand.ScanMembers | cmd/scan.go:118-130 | a finding is in the scan result exactly when some check reports it, the configuration does not ignore its code, and the profile keeps it |
| ScanCommand.ScanSubsequence | cmd/scan.go:118-130 | the two filters keep the checks' order: the result is a subsequence of all findings |
| Text.TrimWhere | internal/checker/checker.go:323 | what trimming leaves neither starts nor ends with a trimmed character (also checker.go lines 332-335) |
| Text.TrimWhereSlice | internal/checker/checker.go:323 | what trimming leaves is a slice of the input, and everything it removed is a trimmed character (also checker.go lines 332-335) |
| Text.TrimPrefix | internal/reporter/checklist.go:131 | with the prefix present the result is what follows it; otherwise the input is returned unchanged (also checklist.go lines 140, 153, 157) |
| Text.TrimSuffix | internal/reporter/checklist.go:131-132 | with the suffix present the result is what precedes it; otherwise the input is returned unchanged |
| Text.Contains | internal/reporter/checklist.go:127 | a string contains `sub` exactly when `sub` occurs at some position (also checklist.go line 152) |
| Text.Cut | internal/checker/checker.go:330 | splitting in two succeeds exactly when the separator occurs; the parts around its first occurrence rebuild the input |
| Text.Split | internal/checker/checker.go:453 | splitting always yields at least one piece |
| Text.Before | internal/reporter/checklist.go:133 | the first piece of a split is the prefix before the first separator, or the whole text when there is none (also checklist.go lines 144, 154, 158-159) |
| Text.SplitAfter | internal/reporter/checklist.go:141 | splitting `x + sep + y` at a separator whose first character is not in `x` gives `x` first (also checklist.go lines 144, 154) |
| Text.TrimSpaceClean | internal/checker/checker.go:323 | text without surrounding white space is its own trim |
| Text.ToLower | internal/checker/checker.go:277 | lower-casing keeps the length and maps each ASCII capital to its small letter |
| Text.Atoi | internal/tools/tools.go:192 | the parsed value is never negative and never above the largest 64-bit `int` |
| FileSystem.JoinPath | internal/checker/checker.go:530-531 | joining drops an empty element and otherwise puts one "/" between the two |
| Tools.ZeroSegmentEqual | internal/tools/tools.go:162-169 | a version compares equal to itself with a zero segment added |
| Tools.ExtraSegmentEqual | internal/tools/tools.go:161 | a segment after the third never changes the comparison |
| Tools.OneDigitPiece | internal/tools/tools.go:181-197 | a version that is one digit string has that number as its only segment |
| Tools.AppendDigitPiece | internal/tools/tools.go:183-194 | appending "." and a digit string appends its number to the segments |
| Tools.Segments20100 | internal/tools/tools.go:181-197 | "20.10.0" parses to the segments 20, 10, 0 |
| Tools.Segments2099 | internal/tools/tools.go:181-197 | "20.9.9" parses to the segments 20, 9, 9 |
| Tools.ChecksLast | internal/tools/tools.go:121-151 | the last visited key adds one check, named after it, exactly when its minimum is non-empty |
| Checklist.EchoCommandOf | internal/reporter/checklist.go:128-135 | the `echo` line of "Add V to .env file" with a non-empty, space-free V appends V to `.env` |
| Checklist.CopyCommandOf | internal/reporter/checklist.go:139-147 | the `cp` line of "Copy X to Y" copies X to the trimmed part of Y before " and " |
| Checklist.TouchCommandOf | internal/reporter/checklist.go:150-160 | with the corrected `directory` test, the `touch` line of "Create F in C or …" creates F |
| Checklist.NoFixesNoBlocks | internal/reporter/checklist.go:118-120 | findings none of which has a fix give no blocks |
| EnvFiles.Parsed | internal/checker/checker.go:322-338 | one parse result per line |

## Left out

- File I/O: `os.ReadFile`, `os.Open`, `os.Stat`, `bufio.Scanner` and `filepath.Walk` are replaced by the `FileSystem.Workspace` value. Read and walk errors are not modelled, and `filepath.Rel` is the identity on the relative paths the walk yields.
- bufio's 64 KB line limit is not modelled. Every line is scanned.
- YAML decoding of compose files: the decoded services are part of the workspace, so an unparsable compose file is a file with no decoded services.
- Go's regular expression engine: the ENV001 reference matcher is written out by hand. The source-code patterns and the custom-rule patterns are abstract oracles (`capture`, `compiles`, `matches`), because what the regexp package does with an arbitrary pattern is outside this model.
- `DetectTools`, `detectTool` and `detectToolWithArgs` spawn processes. The detected tools are a parameter (`map<string, ToolInfo>`).
- Go map iteration order is unspecified. It is the ghost `order` of each method, and the lemmas hold for every order.
- The text, markdown and json reporters, `ChecklistReporter.Report`, `writeChecklistItem` and `writeInfoItem` only format output. The fix-script lines they call (`FixCommand` and the script header) are modelled.
- The CLI: cobra flags and the root command. Also left out:
  - the path resolution of `runScan` (`filepath.Abs`, `os.Stat`) and its exit code 2;
  - the `--config` branch through `LoadFromFile` and its exit code 2;
  - writing the fix list to a file and printing the chosen format;
  - the `init-config` command.
  Unknown profiles, the strict exit code and the body of the scan pipeline are modelled.
- `ExampleConfig` and `LoadFromFile`: reading YAML configuration is a parameter (`loadFromFile`).
- `Profiles.List` returns the profile names in Go map order. The model only has the profile table.
- `IgnorePatterns`, the `BuildContexts` configuration and custom rules that are not `Required` are read by nothing in the checks, so they have no effect.
- `strings.TrimSpace` and `strings.ToLower` are modelled on ASCII only. Unicode white space and case mapping are not modelled.
- `filepath.Join` is concatenation with "/" that drops empty elements. `Clean` (removing `./` and `..`) is not modelled, and neither is `filepath.IsAbs` for overrides.
- Other `os.Stat` errors (permissions, I/O) are not modelled. `FileSystem.NotExist` separates "does not exist" from ENOTDIR by whether a leading component of the path is a regular file, which is exact on a workspace where every existing path has its directories (`FileSystem.ParentsExist`).
- `filepath.Glob` is modelled only for the patterns the detector uses: `*` followed by a literal, matched against the top-level listing.
- Checklist.TouchFix: stated only for a space-free file name F and a space-free context C that does not start with 'o'.
- Checklist.CreateAsWrittenMisroutes: stated only for the same shape of input as `TouchFix`, with F non-empty, not starting with 'o' and not "directory".
- Checklist.EchoFix: stated only for a non-empty, space-free value V.
- Checklist.RequiredVariableEcho: stated only for a space-free variable name.
- Checklist.CopyFix: stated only for a space-free source X and a target without a further " to ".
- Text.Atoi: the contract states only the bounds, from 0 to the largest 64-bit `int`. The decimal value is given by `DecimalValue` and is not restated.
- Text.Split: the contract states only that there is at least one piece. The first piece is stated by `Text.SplitAfter`.

## Findings

| source | as written | input that shows it | evidently intended | confidence | as-written member | corrected member |
|---|---|---|---|---|---|---|
| internal/reporter/checklist.go:150-161 | any "Create …" fix containing the word "directory" takes the `mkdir -p` branch | the BUILD001 fix "Create Dockerfile in ./directory-svc or update build.context" (internal/checker/checker.go:539) becomes `mkdir -p Create Dockerfile in ./directory-svc` | only a "Create directory D …" fix makes a directory; this one gives `touch Dockerfile` | not executed | Checklist.FixCommand, Checklist.CreateAsWrittenMisroutes | Checklist.FixCommandIntended, Checklist.RoutingsAgree |

The script generator of the model (`FixCommand`, `ShellScript`, `GenerateShellScript`) follows the code as written. The corrected routing is `FixCommandIntended` and `ShellScriptIntended`, and `ScriptsAgree` states when the two scripts coincide.
