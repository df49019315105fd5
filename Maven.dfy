/** The Maven detector: from a package's `group:artifact` alias to the
    candidate metadata URLs, the first-non-empty resolution over them and the
    per-field dispatch that writes into the shared result dictionary. */
module Maven {
  import opened Outcomes
  import Strings
  import PosixPath

  /** The configuration dictionary handed down the call chain. */
  type Options = map<string, string>

  /** The contents of the shared result dictionary (field name to value). */
  type Fields = map<string, string>

  const DefaultRepository: string := "http://central.maven.org/maven2/"
  const MetadataFile: string := "maven-metadata.xml"
  const VersionsQuery: string := "/metadata/versioning/versions/version/text()"

  /** The field-to-query table; the queries are opaque keys for the parent. */
  const XPaths: map<string, string> := map[
    "version" := "/metadata/versioning/release/text()|/metadata/version/text()",
    "updatetime" := "/metadata/versioning/lastUpdated/text()",
    "url" := "/project/url/text()",
    "description" := "/project/description/text()",
    "license" := "/project/licenses/license/name/text()"
  ]

  /** The package being watched; `aliases` is `None` when the manifest has no
      "aliases" key. */
  datatype Manifest = Manifest(aliases: Option<seq<string>>)

  datatype Coordinate = Coordinate(group: string, artifact: string)

  /** The exceptions that escape the detector. */
  datatype Error =
    | NoMavenAlias      // raised by get_urls
    | LengthOfNone      // len(None) after resolve found nothing
    | ParentRaised      // any non-KeyError exception of the parent detect

  /** What the parent `XPathDetector.detect` leaves behind: the result
      dictionary as it stands afterwards, and what it raised, if anything. */
  datatype Raised = NoRaise | RaisedKeyError | RaisedOther
  datatype ParentDetection = ParentDetection(entries: Fields, raised: Raised)

  /** The collaborators whose code is not part of this model. */
  datatype Parent = Parent(
    resolve: (Options, Fields) -> seq<string>,
    detect: (string, Options, Fields) -> ParentDetection)
  datatype Ranking = Ranking(findLatest: seq<string> -> string, findStable: seq<string> -> string)

  /** The shared, mutable result dictionary. */
  class ResultMap {
    var entries: Fields

    constructor (initial: Fields)
      ensures entries == initial
    {
      entries := initial;
    }
  }

  // ---------------------------------------------------------------- repositories

  function GetRepositories(options: Options): (repos: seq<string>)
    ensures "repository" in options ==> repos == [options["repository"]]
    ensures "repository" !in options ==> repos == [DefaultRepository]
  {
    if "repository" in options then [options["repository"]] else [DefaultRepository]
  }

  // ---------------------------------------------------------------- aliases

  /** The alias test of get_urls: splitting on ':' gives exactly two parts
      (either part may be empty). */
  predicate IsMavenAlias(alias: string)
  {
    |Strings.Split(alias, ':')| == 2
  }

  /** Index of the first alias that passes the test, if any. */
  function FirstMavenAlias(aliases: seq<string>): (r: Option<nat>)
    ensures r.Some? ==> r.value < |aliases| && IsMavenAlias(aliases[r.value])
    ensures r.Some? ==> forall j :: 0 <= j < r.value ==> !IsMavenAlias(aliases[j])
    ensures r.None? ==> forall j :: 0 <= j < |aliases| ==> !IsMavenAlias(aliases[j])
  {
    if aliases == [] then None
    else if IsMavenAlias(aliases[0]) then Some(0)
    else match FirstMavenAlias(aliases[1..])
      case None => None
      case Some(k) => Some(k + 1)
  }

  function CoordinateOf(alias: string): Coordinate
    requires IsMavenAlias(alias)
  {
    var s := Strings.Split(alias, ':');
    Coordinate(s[0], s[1])
  }

  /** The coordinate get_urls settles on, or the exception it raises. */
  function FindCoordinate(manifest: Manifest): Result<Coordinate, Error>
  {
    match manifest.aliases
    case None => Failure(NoMavenAlias)
    case Some(aliases) =>
      match FirstMavenAlias(aliases)
      case None => Failure(NoMavenAlias)
      case Some(i) => Success(CoordinateOf(aliases[i]))
  }

  // ---------------------------------------------------------------- URLs

  /** The group with dots turned into slashes, a slash, and the artifact. */
  function UrlPath(c: Coordinate): string
  {
    Strings.ReplaceChar(c.group, '.', '/') + "/" + c.artifact
  }

  function MetadataUrl(repo: string, c: Coordinate): string
  {
    PosixPath.Join(repo, [UrlPath(c), MetadataFile])
  }

  function PomFile(c: Coordinate, version: string): string
  {
    c.artifact + "-" + version + ".pom"
  }

  function PomUrl(repo: string, c: Coordinate, version: string): string
  {
    PosixPath.Join(repo, [UrlPath(c), version, PomFile(c, version)])
  }

  /** The candidates one repository contributes. */
  function RepositoryUrls(repo: string, c: Coordinate, result: Fields): seq<string>
  {
    [MetadataUrl(repo, c)] + if "version" in result then [PomUrl(repo, c, result["version"])] else []
  }

  /** The candidates of every repository, in repository order. */
  function CandidateUrls(repos: seq<string>, c: Coordinate, result: Fields): seq<string>
  {
    if repos == [] then []
    else CandidateUrls(repos[..|repos| - 1], c, result) + RepositoryUrls(repos[|repos| - 1], c, result)
  }

  lemma CandidateUrlsSnoc(repos: seq<string>, k: nat, c: Coordinate, result: Fields)
    requires k < |repos|
    ensures CandidateUrls(repos[..k + 1], c, result) == CandidateUrls(repos[..k], c, result) + RepositoryUrls(repos[k], c, result)
  {
    assert repos[..k + 1][..k] == repos[..k];
  }

  /** What get_urls returns or raises. */
  function Urls(manifest: Manifest, options: Options, result: Fields): Result<seq<string>, Error>
  {
    match FindCoordinate(manifest)
    case Failure(e) => Failure(e)
    case Success(c) => Success(CandidateUrls(GetRepositories(options), c, result))
  }

  /** The alias scan of get_urls: stop at the first alias that splits into
      two parts. */
  method ScanAliases(manifest: Manifest) returns (found: Result<Coordinate, Error>)
    ensures found == FindCoordinate(manifest)
  {
    if manifest.aliases.None? {
      return Failure(NoMavenAlias);
    }
    var aliases := manifest.aliases.value;
    var i := 0;
    while i < |aliases|
      invariant 0 <= i <= |aliases|
      invariant forall j :: 0 <= j < i ==> !IsMavenAlias(aliases[j])
    {
      var s := Strings.Split(aliases[i], ':');
      if |s| == 2 {
        assert FirstMavenAlias(aliases) == Some(i);
        return Success(Coordinate(s[0], s[1]));
      }
      i := i + 1;
    }
    return Failure(NoMavenAlias);
  }

  /** One iteration of the URL loop of get_urls: the metadata index, then the
      POM once a version is known. */
  method AppendRepositoryUrls(urls: seq<string>, repo: string, c: Coordinate, result: Fields)
    returns (out: seq<string>)
    ensures out == urls + RepositoryUrls(repo, c, result)
  {
    out := urls + [MetadataUrl(repo, c)];
    if "version" in result {
      out := out + [PomUrl(repo, c, result["version"])];
    }
  }

  /** The URL loop of get_urls: append each repository's candidates. */
  method BuildUrls(repos: seq<string>, c: Coordinate, result: Fields) returns (urls: seq<string>)
    ensures urls == CandidateUrls(repos, c, result)
  {
    urls := [];
    for k := 0 to |repos|
      invariant urls == CandidateUrls(repos[..k], c, result)
    {
      CandidateUrlsSnoc(repos, k, c, result);
      urls := AppendRepositoryUrls(urls, repos[k], c, result);
    }
    assert repos[..|repos|] == repos;
  }

  /** get_urls: the alias scan, then the candidates of every repository. */
  method GetUrls(manifest: Manifest, options: Options, result: Fields)
    returns (urls: Result<seq<string>, Error>)
    ensures urls == Urls(manifest, options, result)
  {
    var found := ScanAliases(manifest);
    if found.Failure? {
      return Failure(found.error);
    }
    var list := BuildUrls(GetRepositories(options), found.value, result);
    return Success(list);
  }

  // ---------------------------------------------------------------- resolve

  /** The parent's answer for one candidate URL. */
  function Attempt(parent: Parent, options: Options, result: Fields, url: string): seq<string>
  {
    parent.resolve(options["url" := url], result)
  }

  /** Index of the first candidate whose answer is non-empty (truthy). */
  function FirstHit(parent: Parent, options: Options, result: Fields, urls: seq<string>): (r: Option<nat>)
    ensures r.Some? ==> r.value < |urls| && |Attempt(parent, options, result, urls[r.value])| > 0
    ensures r.Some? ==> forall j :: 0 <= j < r.value ==> Attempt(parent, options, result, urls[j]) == []
    ensures r.None? ==> forall j :: 0 <= j < |urls| ==> Attempt(parent, options, result, urls[j]) == []
  {
    if urls == [] then None
    else if Attempt(parent, options, result, urls[0]) != [] then Some(0)
    else match FirstHit(parent, options, result, urls[1..])
      case None => None
      case Some(k) => Some(k + 1)
  }

  /** The first non-empty answer over `urls`, or `None` when all are empty. */
  function FirstAnswer(parent: Parent, options: Options, result: Fields, urls: seq<string>)
    : Option<seq<string>>
  {
    match FirstHit(parent, options, result, urls)
    case None => None
    case Some(i) => Some(Attempt(parent, options, result, urls[i]))
  }

  /** What resolve returns (`None` when every candidate is empty) or raises. */
  function Resolution(manifest: Manifest, parent: Parent, options: Options, result: Fields)
    : Result<Option<seq<string>>, Error>
  {
    match Urls(manifest, options, result)
    case Failure(e) => Failure(e)
    case Success(urls) => Success(FirstAnswer(parent, options, result, urls))
  }

  /** The candidate loop of resolve: stop at the first non-empty answer.
      `tried` records the candidates handed to the parent. */
  method TryCandidates(parent: Parent, options: Options, result: Fields, urls: seq<string>)
    returns (r: Option<seq<string>>, ghost tried: seq<string>)
    ensures r == FirstAnswer(parent, options, result, urls)
    ensures match FirstHit(parent, options, result, urls)
            case None => tried == urls
            case Some(i) => tried == urls[..i + 1]
  {
    tried := [];
    var i := 0;
    while i < |urls|
      invariant 0 <= i <= |urls|
      invariant tried == urls[..i]
      invariant forall j :: 0 <= j < i ==> Attempt(parent, options, result, urls[j]) == []
    {
      var newOptions := options["url" := urls[i]];
      var answer := parent.resolve(newOptions, result);
      tried := tried + [urls[i]];
      if answer != [] {
        return Some(answer), tried;
      }
      i := i + 1;
    }
    assert urls[..i] == urls;
    return None, tried;
  }

  /** resolve: the candidates of get_urls, tried in order. */
  method Resolve(manifest: Manifest, parent: Parent, options: Options, result: Fields)
    returns (r: Result<Option<seq<string>>, Error>, ghost tried: seq<string>)
    ensures r == Resolution(manifest, parent, options, result)
    ensures Urls(manifest, options, result).Failure? ==> tried == []
    ensures Urls(manifest, options, result).Success? ==>
      var urls := Urls(manifest, options, result).value;
      match FirstHit(parent, options, result, urls)
      case None => tried == urls
      case Some(i) => tried == urls[..i + 1]
  {
    var candidates := GetUrls(manifest, options, result);
    if candidates.Failure? {
      return Failure(candidates.error), [];
    }
    var answer;
    answer, tried := TryCandidates(parent, options, result, candidates.value);
    return Success(answer), tried;
  }

  // ---------------------------------------------------------------- detect

  /** The dictionary after a detect call and how the call ended. */
  datatype Detection = Detection(entries: Fields, outcome: Outcome<Error>)

  predicate IsVersionField(what: string)
  {
    what == "version" || what == "stable_version"
  }

  /** The effect of detect on the result dictionary `result`. */
  function Detected(what: string, manifest: Manifest, parent: Parent, ranking: Ranking,
                    options: Options, result: Fields): Detection
  {
    if IsVersionField(what) then
      match Resolution(manifest, parent, options["xpath" := VersionsQuery], result)
      case Failure(e) => Detection(result, Fail(e))
      case Success(None) => Detection(result, Fail(LengthOfNone))
      // resolve only returns non-empty lists, so `len(versions) > 0` holds here
      case Success(Some(versions)) =>
        var pick := if what == "version" then ranking.findLatest(versions) else ranking.findStable(versions);
        Detection(result[what := pick], Pass)
    else if what !in XPaths then
      Detection(result, Pass)
    else
      var d := parent.detect(what, options["xpath" := XPaths[what]], result);
      Detection(d.entries, if d.raised == RaisedOther then Fail(ParentRaised) else Pass)
  }

  /** detect: writes into the shared dictionary in place. */
  method Detect(what: string, manifest: Manifest, parent: Parent, ranking: Ranking,
                options: Options, result: ResultMap)
    returns (outcome: Outcome<Error>)
    modifies result
    ensures Detection(result.entries, outcome) == Detected(what, manifest, parent, ranking, options, old(result.entries))
  {
    if IsVersionField(what) {
      var versions, _ := Resolve(manifest, parent, options["xpath" := VersionsQuery], result.entries);
      if versions.Failure? {
        return Fail(versions.error);
      }
      if versions.value.None? {
        return Fail(LengthOfNone);
      }
      var list := versions.value.value;
      if |list| > 0 {
        result.entries := result.entries[what := if what == "version" then ranking.findLatest(list) else ranking.findStable(list)];
        return Pass;
      }
    }
    if what !in XPaths {
      return Pass;
    }
    var newOptions := options["xpath" := XPaths[what]];
    var d := parent.detect(what, newOptions, result.entries);
    result.entries := d.entries;
    if d.raised == RaisedOther {
      return Fail(ParentRaised);
    }
    return Pass;
  }
}
