# Maven detector, modelled and verified in Dafny

This project models `MavenDetector` from `dependencywatcher/crawler/maven.py`.
The detector finds the newest metadata of a package published in a Maven
repository. It works in three steps:

- **`get_urls`** takes the package's `group:artifact` alias and builds an ordered list of candidate URLs.
  Each repository contributes its `maven-metadata.xml` index first.
  It also contributes the `{version}/{artifact}-{version}.pom` descriptor, but only once a version is in the result.
- **`resolve`** tries those candidates in order, handing each to the parent detector with `"url"` set.
  It stops at the first non-empty answer.
- **`detect`** handles one requested field.
  `version` and `stable_version` take the full version list and pass it to the ranking utility.
  Other fields go to the parent detector through the `XPATHS` field-to-query table.
  Any other field is silently ignored.

Files:

- `Outcomes.dfy`: `Option`, `Result` and `Outcome` stand in for Python's `None` and raised exceptions.
- `Strings.dfy`: `str.split` on one character, and `str.replace` of one character by another.
- `PosixPath.dfy`: Python's `posixpath.join`, which is `os.path.join` on POSIX systems. An absolute part restarts the path. Otherwise the part is appended, with one `/` unless the path is empty or already ends in `/`.
- `Maven.dfy`: the detector itself:
  - the repository fallback;
  - the alias scan (a loop with an early exit);
  - the URL loop (appends per repository);
  - the candidate loop of `resolve` (early return);
  - `detect`, which updates the shared result dictionary (a `ResultMap` object) in place.

  Each method is proved equal to a specification function (`Urls`, `Resolution`, `Detected`).
- `MavenProperties.dfy`: lemmas about those specification functions.

Collaborators whose code is not part of this model are passed in as function values. Nothing is assumed about what they return, except where a lemma states it as a hypothesis (`IgnoresResult`: the parent `resolve` does not look at the result dictionary):

- the parent `XPathDetector.resolve` and `XPathDetector.detect`;
- `VersionUtil.find_latest` and `VersionUtil.find_stable`.

The parent `resolve` returns a list of strings, which may be empty. It never raises and does not change the result dictionary, although in Python it receives the live dictionary; a list is truthy exactly when it is non-empty. The parent `detect` returns the result dictionary as it leaves it, plus what it raised, if anything.

Behaviour of the code that an intended reading might not expect, as the model keeps it:

- The alias test is only "`split(":")` gives exactly two parts", so `a:` and `:b` are accepted with an empty group or artifact.
- `resolve` only ever returns a non-empty list or `None`. So the `len(versions) > 0` test in `detect` always passes when it runs. A `None` makes `len` raise, which the model records as the error `LengthOfNone`.
- For that reason, `stable_version` never reaches the `XPATHS` lookup. A failed `stable_version` detection raises; it is not a silent no-op.
- A group that is empty or starts with `.` makes `url_path` absolute. `os.path.join` then drops the repository from both URLs (`AbsolutePathDropsRepository`).
- Repeating a successful `detect("version")` is guaranteed to give the same value when no version was known before, or when the version list came from the metadata index. Otherwise the list came from the POM of the old version. After the update the candidate is the POM of the new version, which may answer differently. Proved in `VersionDetectionRepeatable`, assuming the parent `resolve` ignores the result argument.

## Model

| member | source | states |
|---|---|---|
| `Strings.Split` | dependencywatcher/crawler/maven.py:30 | `alias.split(":")` gives one more part than there are separators; no part contains the separator; joining the parts with it gives back the alias |
| `Strings.SplitAtSoleSeparator` | dependencywatcher/crawler/maven.py:30-33 | a string with a single separator at `i` splits into exactly `[s[..i], s[i+1..]]` |
| `Strings.SplitWithoutSeparator` | dependencywatcher/crawler/maven.py:30 | a string without the separator splits into itself alone |
| `Strings.ReplaceCharAt` | dependencywatcher/crawler/maven.py:34 | `group.replace(".", "/")` keeps the length, turns every `.` into `/` and keeps every other character |
| `Strings.ReplaceChar` | dependencywatcher/crawler/maven.py:34 | definition of `str.replace` for one character by another; its behaviour is stated by `ReplaceCharAt` |
| `Strings.ReplaceDotExample` | dependencywatcher/crawler/maven.py:34 | `org.example` becomes `org/example` |
| `PosixPath.JoinStep` | dependencywatcher/crawler/maven.py:46 | one step of `posixpath.join`: an absolute part replaces the path; otherwise the part is appended, after a `/` unless the path is empty or ends in `/`; properties in `JoinStepKeeps` and `JoinStepRelative` |
| `PosixPath.Join` | dependencywatcher/crawler/maven.py:46-48 | `os.path.join(first, *parts)` as a left fold of `JoinStep`; properties in `JoinEndsWithLast`, `JoinKeepsPrefix` and `JoinRestartsAtAbsolute` |
| `PosixPath.JoinStepKeeps` | dependencywatcher/crawler/maven.py:46 | one join step ends with the appended part; an absolute part replaces the path; a relative one keeps the path as a prefix |
| `PosixPath.JoinStepRelative` | dependencywatcher/crawler/maven.py:46 | a non-empty relative part joined to a non-empty path not ending in `/` is put after exactly one `/`; the result ends in `/` exactly when the part does |
| `PosixPath.JoinEndsWithLast` | dependencywatcher/crawler/maven.py:46-48 | a joined path always ends with its last component |
| `PosixPath.JoinKeepsPrefix` | dependencywatcher/crawler/maven.py:46-48 | when no later component is absolute, the joined path starts with the first component (the repository) |
| `PosixPath.JoinRestartsAtAbsolute` | dependencywatcher/crawler/maven.py:46-48 | an absolute component discards everything joined before it |
| `Maven.GetRepositories` | dependencywatcher/crawler/maven.py:18-22 | exactly `[options["repository"]]` when the key is present, otherwise exactly `["http://central.maven.org/maven2/"]` |
| `Maven.IsMavenAlias` | dependencywatcher/crawler/maven.py:30-31 | the alias test `len(alias.split(":")) == 2`; characterised by `MavenAliasHasOneColon` |
| `Maven.FirstMavenAlias` | dependencywatcher/crawler/maven.py:28-35 | the index of the first alias whose split has two parts, with every earlier alias failing the test; `None` when every alias fails |
| `Maven.CoordinateOf` | dependencywatcher/crawler/maven.py:32-33 | group and artifact are the two parts of the split; characterised by `CoordinateSplitsAtColon` |
| `Maven.FindCoordinate` | dependencywatcher/crawler/maven.py:26-42 | the coordinate of the first Maven alias, or `NoMavenAlias` when the "aliases" key is missing or no alias qualifies; characterised by `AliasSelection` and computed by `ScanAliases` |
| `Maven.UrlPath` | dependencywatcher/crawler/maven.py:34 | `url_path` is the group with `.` replaced by `/`, a `/`, and the artifact; characterised by `UrlPathLayout` |
| `Maven.MetadataUrl` | dependencywatcher/crawler/maven.py:46 | the join of repository, `url_path` and `maven-metadata.xml`; properties in `MetadataUrlUnderRepository`, `AbsolutePathDropsRepository` and `CandidateFileNames` |
| `Maven.PomFile` | dependencywatcher/crawler/maven.py:48 | the POM file name `{artifact}-{version}.pom`; properties in `CandidateFileNames` and `PomUrlUnderRepository` |
| `Maven.PomUrl` | dependencywatcher/crawler/maven.py:48 | the join of repository, `url_path`, the version and `{artifact}-{version}.pom`; properties in `PomUrlUnderRepository`, `AbsolutePathDropsRepository` and `CandidateFileNames` |
| `Maven.ScanAliases` | dependencywatcher/crawler/maven.py:26-42 | the alias loop with its early `break` yields the coordinate of the first Maven alias, or raises "no Maven alias" when the key is missing or no alias qualifies |
| `Maven.RepositoryUrls` | dependencywatcher/crawler/maven.py:46-50 | what one repository contributes: its metadata URL, then its POM URL exactly when `"version"` is a key of the result; computed by `AppendRepositoryUrls` |
| `Maven.CandidateUrls` | dependencywatcher/crawler/maven.py:44-51 | the candidates of every repository in repository order; computed by `BuildUrls`, laid out by `CandidatesWithoutVersion` and `CandidatesWithVersion` |
| `Maven.CandidateUrlsSnoc` | dependencywatcher/crawler/maven.py:45-50 | one more repository extends the candidate list by exactly that repository's candidates |
| `Maven.Urls` | dependencywatcher/crawler/maven.py:24-51 | what `get_urls` returns or raises; computed by `GetUrls`, characterised by `UrlsFailWithoutAlias` and `UrlsLayout` |
| `Maven.AppendRepositoryUrls` | dependencywatcher/crawler/maven.py:46-50 | one pass of the repository loop appends the metadata URL, then the POM URL exactly when `"version"` is in the result |
| `Maven.BuildUrls` | dependencywatcher/crawler/maven.py:44-51 | the repository loop builds the candidates of every repository, in repository order |
| `Maven.GetUrls` | dependencywatcher/crawler/maven.py:24-51 | `get_urls` returns or raises exactly what `Urls` says: the alias scan, then the whole candidate list, without changing its inputs |
| `Maven.Attempt` | dependencywatcher/crawler/maven.py:55-56 | the parent's `resolve` answer for the options with `"url"` set to one candidate, the other options kept; properties in `FirstHit` and `ResolutionIsFirstNonEmpty` |
| `Maven.FirstHit` | dependencywatcher/crawler/maven.py:54-58 | the first candidate whose parent answer (with `"url"` set to it) is non-empty, with all earlier answers empty; `None` when every answer is empty |
| `Maven.FirstAnswer` | dependencywatcher/crawler/maven.py:54-58 | the answer of the first candidate found by `FirstHit`, or `None`; computed by `TryCandidates` |
| `Maven.TryCandidates` | dependencywatcher/crawler/maven.py:54-58 | the candidate loop returns the first non-empty answer or `None`; the candidates handed to the parent are exactly those up to and including the first success, so later ones are never tried |
| `Maven.Resolution` | dependencywatcher/crawler/maven.py:53-58 | what `resolve` returns or raises; computed by `Resolve`, characterised by `ResolutionIsFirstNonEmpty` and `MetadataIndexWins` |
| `Maven.Resolve` | dependencywatcher/crawler/maven.py:53-58 | `resolve` returns `Resolution`, propagates the alias error of `get_urls` without trying any URL, and tries candidates only up to the first success |
| `Maven.IsVersionField` | dependencywatcher/crawler/maven.py:61 | the field is `version` or `stable_version`; its two branches are characterised by `VersionFieldOutcome`, `UnknownFieldIsNoOp` and `TableFieldDelegates` |
| `Maven.Detected` | dependencywatcher/crawler/maven.py:60-71 | the new result dictionary and the outcome of `detect`; computed by `Detect`, characterised by `VersionFieldOutcome`, `UnknownFieldIsNoOp`, `TableFieldDelegates` and the repeatability lemmas |
| `Maven.Detect` | dependencywatcher/crawler/maven.py:60-71 | `detect` leaves the result dictionary and returns the outcome exactly as `Detected` says |
| `MavenProperties.XPathsFields` | dependencywatcher/crawler/maven.py:10-16 | the query table has exactly the keys version, updatetime, url, description and license, each mapped to its query string; stable_version is not one of them |
| `MavenProperties.MavenAliasHasOneColon` | dependencywatcher/crawler/maven.py:30-31 | an alias passes the test exactly when it holds a single `:`; aliases with no colon or with several are skipped |
| `MavenProperties.CoordinateSplitsAtColon` | dependencywatcher/crawler/maven.py:30-33 | for an alias with a single `:`, the group is the text before it and the artifact the text after it, either possibly empty |
| `MavenProperties.AliasSelection` | dependencywatcher/crawler/maven.py:26-42 | the coordinate is found exactly when some alias qualifies, and it is that of the first one in manifest order; otherwise the error is NoMavenAlias, also when the "aliases" key is missing |
| `MavenProperties.UrlsFailWithoutAlias` | dependencywatcher/crawler/maven.py:38-42 | `get_urls` fails, building no URL, if and only if no alias qualifies or the key is missing |
| `MavenProperties.UrlPathLayout` | dependencywatcher/crawler/maven.py:34 | `url_path` is the group with each `.` turned into `/`, then `/`, then the artifact unchanged |
| `MavenProperties.UrlPathExample` | dependencywatcher/crawler/maven.py:34 | `org.example:mylib` gives `org/example/mylib` |
| `MavenProperties.CandidatesWithoutVersion` | dependencywatcher/crawler/maven.py:44-51 | with no version in the result, the list is the metadata URL of each repository, in order, one per repository |
| `MavenProperties.CandidatesLength` | dependencywatcher/crawler/maven.py:44-51 | with a version in the result, each repository contributes two candidates |
| `MavenProperties.CandidatePairAt` | dependencywatcher/crawler/maven.py:44-51 | with a version, positions 2k and 2k+1 hold repository k's metadata URL and then its POM URL |
| `MavenProperties.CandidatesWithVersion` | dependencywatcher/crawler/maven.py:44-51 | with a version, the list is twice as long as the repository list, each metadata URL followed by the POM URL of the same repository |
| `MavenProperties.UrlsLayout` | dependencywatcher/crawler/maven.py:44-51 | on success the list is the metadata URL of the one repository, followed by its POM URL if and only if `"version"` is in the result |
| `MavenProperties.MetadataUrlUnderRepository` | dependencywatcher/crawler/maven.py:46 | for a non-empty group not starting with `.` or `/` and a non-empty artifact not ending in `/`, the metadata URL is the repository, a `/` when the repository is non-empty and does not end in one, the path, `/maven-metadata.xml` |
| `MavenProperties.PomUrlUnderRepository` | dependencywatcher/crawler/maven.py:48 | for a non-empty group not starting with `.` or `/`, a non-empty artifact and a non-empty version, neither starting nor ending with `/`, the POM URL is the repository, a `/` when the repository is non-empty and does not end in one, the path, `/{version}/{artifact}-{version}.pom` |
| `MavenProperties.AbsolutePathDropsRepository` | dependencywatcher/crawler/maven.py:34-48 | an empty group, or one starting with `.` or `/`, makes both URLs independent of the repository |
| `MavenProperties.CandidateFileNames` | dependencywatcher/crawler/maven.py:46-48 | the metadata URL ends with `maven-metadata.xml`; the POM URL ends with `{artifact}-{version}.pom` |
| `MavenProperties.ExampleCoordinate` | dependencywatcher/crawler/maven.py:28-35 | a manifest whose first alias is `org.example:mylib` selects group `org.example`, artifact `mylib` |
| `MavenProperties.ExampleUrls` | dependencywatcher/crawler/maven.py:46-48 | on the default repository, org.example:mylib and version 1.2, the metadata URL is `{default}org/example/mylib/maven-metadata.xml` and the POM URL `{default}org/example/mylib/1.2/mylib-1.2.pom` |
| `MavenProperties.DefaultRepositoryExample` | dependencywatcher/crawler/maven.py:24-51 | the worked example: only the metadata URL before a version is known; the metadata URL and then the 1.2 POM once `result["version"]` is 1.2 |
| `MavenProperties.ResolutionIsFirstNonEmpty` | dependencywatcher/crawler/maven.py:53-58 | `resolve` gives `None` if and only if every candidate answers empty; otherwise it gives a non-empty answer belonging to the first candidate that answers non-empty |
| `MavenProperties.MetadataIndexWins` | dependencywatcher/crawler/maven.py:46-58 | a non-empty answer from the metadata index is the resolution, whatever the POM would answer |
| `MavenProperties.UnknownFieldIsNoOp` | dependencywatcher/crawler/maven.py:67-71 | a field that is neither version nor stable_version and not in `XPATHS` leaves the result unchanged and raises nothing |
| `MavenProperties.VersionFieldOutcome` | dependencywatcher/crawler/maven.py:61-65 | for version and stable_version, a found version list stores the latest or stable pick under that field alone, changing no other entry; an alias error, or `None` from `resolve`, raises and leaves the result unchanged |
| `MavenProperties.VersionFromMetadataIndex` | dependencywatcher/crawler/maven.py:44-65 | before a version is known, the version list is the parent's answer for the metadata index, with the versions query set; an empty answer raises and changes nothing |
| `MavenProperties.TableFieldDelegates` | dependencywatcher/crawler/maven.py:67-71 | a table field goes to the parent with `"xpath"` set to its query; a KeyError inside the parent is swallowed and any other exception escapes |
| `MavenProperties.FirstHitIgnoresResult` | dependencywatcher/crawler/maven.py:53-58 | when the parent's resolve ignores the result dictionary, so does the choice of candidate |
| `MavenProperties.SameVersionSameResolution` | dependencywatcher/crawler/maven.py:44-58 | when the parent's `resolve` ignores the result, resolution depends on the result only through its `"version"` entry |
| `MavenProperties.MetadataAnswerSurvives` | dependencywatcher/crawler/maven.py:44-58 | when the parent's `resolve` ignores the result: once the metadata index has answered with no version known, it still answers first after a version is stored |
| `MavenProperties.StableRepeatable` | dependencywatcher/crawler/maven.py:60-65 | when the parent's `resolve` ignores the result, repeating a successful stable_version detection leaves the same result |
| `MavenProperties.LatestRepeatable` | dependencywatcher/crawler/maven.py:60-65 | when the parent's `resolve` ignores the result, and no version was known before or the metadata index answers the versions query, repeating a successful version detection leaves the same result |
| `MavenProperties.VersionDetectionRepeatable` | dependencywatcher/crawler/maven.py:60-65 | when the parent's `resolve` ignores the result, detection of the version fields is idempotent in the two cases above |

## Left out

- The document cache and the XPath extractor (`updater/extractors.py`) are left out. They wrap an HTTP fetch and an HTML/XML parse in foreign libraries.
- XPath query semantics are left out. The query strings of `XPATHS` and the versions query are opaque keys handed to the parent.
- Version ranking in `VersionUtil` is left out. `find_latest` and `find_stable` are arbitrary functions of the version list.
- The parent `XPathDetector.resolve` and `XPathDetector.detect` are arbitrary functions. `dependencywatcher/crawler/xpath.py` is not part of this model.
- Maven.Detect: it returns `Pass` where Python returns whatever the parent `detect` returned, because that value's meaning is not known.
- Maven.Resolve: the parent `resolve` is total, so fetch or parse exceptions inside it are not modelled. Only the alias error of `get_urls` propagates from `resolve`.
- Python truthiness is modelled for lists of strings only: `if r:` holds exactly when the parent's answer is non-empty.
- The parent `detect` may update the dictionary before it raises. The model takes the dictionary it reports as the new contents in every case.
- Logging and the text of exception messages are left out. The `except ValueError` around `split` is left out too: `str.split` never raises it.
- MavenProperties.VersionDetectionRepeatable: it assumes, like MavenProperties.StableRepeatable, MavenProperties.LatestRepeatable, MavenProperties.SameVersionSameResolution, MavenProperties.MetadataAnswerSurvives and MavenProperties.FirstHitIgnoresResult, that the parent `resolve` ignores the result dictionary. The parent `resolve` is not modelled, so ignoring the result dictionary is an assumption about it, not a proved fact.
