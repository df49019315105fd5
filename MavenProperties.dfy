/** Properties of the Maven detector model. */
module MavenProperties {
  import opened Outcomes
  import Strings
  import PosixPath
  import opened Maven

  // ---------------------------------------------------------------- the query table

  /** The table covers exactly five fields, each with its query; "stable_version"
      is not one of them. */
  lemma XPathsFields()
    ensures XPaths.Keys == {"version", "updatetime", "url", "description", "license"}
    ensures "stable_version" !in XPaths
    ensures XPaths["version"] == "/metadata/versioning/release/text()|/metadata/version/text()"
    ensures XPaths["updatetime"] == "/metadata/versioning/lastUpdated/text()"
    ensures XPaths["url"] == "/project/url/text()"
    ensures XPaths["description"] == "/project/description/text()"
    ensures XPaths["license"] == "/project/licenses/license/name/text()"
  {
  }

  // ---------------------------------------------------------------- alias selection

  /** An alias is a Maven alias exactly when it holds a single ':'. Aliases with
      no colon or with two or more are skipped. */
  lemma MavenAliasHasOneColon(alias: string)
    ensures IsMavenAlias(alias) <==> Strings.Occurrences(alias, ':') == 1
  {
  }

  /** The coordinate of a Maven alias: the text before its colon is the group,
      the text after it the artifact, either possibly empty. */
  lemma CoordinateSplitsAtColon(alias: string, i: nat)
    requires i < |alias| && alias[i] == ':'
    requires ':' !in alias[..i] && ':' !in alias[i + 1..]
    ensures IsMavenAlias(alias)
    ensures CoordinateOf(alias) == Coordinate(alias[..i], alias[i + 1..])
  {
    Strings.SplitAtSoleSeparator(alias, ':', i);
  }

  /** The first Maven alias in manifest order is the one used; without one, or
      without an "aliases" key, no coordinate is found. */
  lemma AliasSelection(manifest: Manifest)
    ensures FindCoordinate(manifest).Failure? <==>
      manifest.aliases.None? || forall j :: 0 <= j < |manifest.aliases.value| ==> !IsMavenAlias(manifest.aliases.value[j])
    ensures FindCoordinate(manifest).Failure? ==> FindCoordinate(manifest).error == NoMavenAlias
    ensures FindCoordinate(manifest).Success? ==>
      var aliases := manifest.aliases.value;
      exists i :: 0 <= i < |aliases| && IsMavenAlias(aliases[i])
        && (forall j :: 0 <= j < i ==> !IsMavenAlias(aliases[j]))
        && FindCoordinate(manifest).value == CoordinateOf(aliases[i])
  {
    if manifest.aliases.Some? {
      var aliases := manifest.aliases.value;
      match FirstMavenAlias(aliases)
      case None =>
      case Some(i) =>
        assert IsMavenAlias(aliases[i]);
    }
  }

  /** get_urls fails, and builds no URL, exactly when no alias qualifies. */
  lemma UrlsFailWithoutAlias(manifest: Manifest, options: Options, result: Fields)
    ensures Urls(manifest, options, result).Failure? <==>
      manifest.aliases.None? || forall j :: 0 <= j < |manifest.aliases.value| ==> !IsMavenAlias(manifest.aliases.value[j])
    ensures Urls(manifest, options, result).Failure? ==> Urls(manifest, options, result) == Failure(NoMavenAlias)
  {
    AliasSelection(manifest);
  }

  // ---------------------------------------------------------------- the URL path

  /** The path is the group with every '.' turned into '/', a '/', and the
      artifact unchanged. */
  lemma UrlPathLayout(c: Coordinate)
    ensures |UrlPath(c)| == |c.group| + 1 + |c.artifact|
    ensures forall i :: 0 <= i < |c.group| ==> UrlPath(c)[i] == if c.group[i] == '.' then '/' else c.group[i]
    ensures UrlPath(c)[|c.group|] == '/'
    ensures UrlPath(c)[|c.group| + 1..] == c.artifact
  {
    var g := Strings.ReplaceChar(c.group, '.', '/');
    Strings.ReplaceCharAt(c.group, '.', '/');
    assert UrlPath(c) == g + "/" + c.artifact;
    assert (g + "/" + c.artifact)[|g| + 1..] == c.artifact;
  }

  /** org.example:mylib lives under org/example/mylib.
      The literal comes in through a parameter, so the solver meets it only
      where the proof needs it. */
  lemma UrlPathExample(c: Coordinate)
    requires c.group == "org.example" && c.artifact == "mylib"
    ensures UrlPath(c) == "org/example/mylib"
  {
    Strings.ReplaceDotExample(c.group);
  }

  // ---------------------------------------------------------------- the candidate list

  /** Without a known version every repository contributes its metadata index
      alone, in repository order. */
  lemma {:induction false} CandidatesWithoutVersion(repos: seq<string>, c: Coordinate, result: Fields)
    requires "version" !in result
    ensures |CandidateUrls(repos, c, result)| == |repos|
    ensures forall k :: 0 <= k < |repos| ==> CandidateUrls(repos, c, result)[k] == MetadataUrl(repos[k], c)
  {
    if repos != [] {
      CandidatesWithoutVersion(repos[..|repos| - 1], c, result);
    }
  }

  /** With a known version every repository contributes its metadata index and
      then its POM, in repository order. */
  lemma {:induction false} CandidatesWithVersion(repos: seq<string>, c: Coordinate, result: Fields)
    requires "version" in result
    ensures |CandidateUrls(repos, c, result)| == 2 * |repos|
    ensures forall k :: 0 <= k < |repos| ==>
      CandidateUrls(repos, c, result)[2 * k] == MetadataUrl(repos[k], c) &&
      CandidateUrls(repos, c, result)[2 * k + 1] == PomUrl(repos[k], c, result["version"])
  {
    CandidatesLength(repos, c, result);
    forall k | 0 <= k < |repos|
      ensures CandidateUrls(repos, c, result)[2 * k] == MetadataUrl(repos[k], c)
      ensures CandidateUrls(repos, c, result)[2 * k + 1] == PomUrl(repos[k], c, result["version"])
    {
      CandidatePairAt(repos, c, result, k);
    }
  }

  lemma {:induction false} CandidatesLength(repos: seq<string>, c: Coordinate, result: Fields)
    requires "version" in result
    ensures |CandidateUrls(repos, c, result)| == 2 * |repos|
  {
    if repos != [] {
      CandidatesLength(repos[..|repos| - 1], c, result);
    }
  }

  /** The pair of candidates for the repository at position `k`. */
  lemma {:induction false} CandidatePairAt(repos: seq<string>, c: Coordinate, result: Fields, k: nat)
    requires "version" in result && k < |repos|
    ensures |CandidateUrls(repos, c, result)| == 2 * |repos|
    ensures CandidateUrls(repos, c, result)[2 * k] == MetadataUrl(repos[k], c)
    ensures CandidateUrls(repos, c, result)[2 * k + 1] == PomUrl(repos[k], c, result["version"])
    decreases |repos|
  {
    var init := repos[..|repos| - 1];
    var before := CandidateUrls(init, c, result);
    var last := RepositoryUrls(repos[|repos| - 1], c, result);
    assert CandidateUrls(repos, c, result) == before + last;
    CandidatesLength(init, c, result);
    if k < |init| {
      CandidatePairAt(init, c, result, k);
      assert repos[k] == init[k];
    }
  }

  /** get_urls on success: the metadata index of the single repository first,
      followed by the POM if and only if a version is already in the result. */
  lemma UrlsLayout(manifest: Manifest, options: Options, result: Fields)
    requires FindCoordinate(manifest).Success?
    ensures var c := FindCoordinate(manifest).value;
            var repo := GetRepositories(options)[0];
            Urls(manifest, options, result) == Success(
              [MetadataUrl(repo, c)] + if "version" in result then [PomUrl(repo, c, result["version"])] else [])
    ensures |Urls(manifest, options, result).value| == 2 <==> "version" in result
  {
    var repos := GetRepositories(options);
    var c := FindCoordinate(manifest).value;
    assert repos[..|repos| - 1] == [];
    assert CandidateUrls(repos, c, result) == RepositoryUrls(repos[0], c, result);
  }

  /** The base a repository URL offers to a relative path. */
  function Directory(repo: string): string
  {
    if repo == [] || PosixPath.EndsWithSep(repo) then repo else repo + "/"
  }

  /** A well-formed coordinate's metadata index sits under the repository. */
  lemma MetadataUrlUnderRepository(repo: string, c: Coordinate)
    requires c.group != [] && c.group[0] != '.' && c.group[0] != '/'
    requires c.artifact != [] && c.artifact[|c.artifact| - 1] != '/'
    ensures MetadataUrl(repo, c) == Directory(repo) + UrlPath(c) + "/" + MetadataFile
  {
    UrlPathLayout(c);
    var p := UrlPath(c);
    assert p[|p| - 1] == c.artifact[|c.artifact| - 1];
    var first := PosixPath.JoinStep(repo, p);
    assert first == Directory(repo) + p;
    assert [p, MetadataFile][1..] == [MetadataFile];
    assert PosixPath.Join(first, [MetadataFile]) == PosixPath.JoinStep(first, MetadataFile);
  }

  /** A well-formed coordinate and version give a POM under the repository. */
  lemma PomUrlUnderRepository(repo: string, c: Coordinate, version: string)
    requires c.group != [] && c.group[0] != '.' && c.group[0] != '/'
    requires c.artifact != [] && c.artifact[0] != '/' && c.artifact[|c.artifact| - 1] != '/'
    requires version != [] && version[0] != '/' && version[|version| - 1] != '/'
    ensures PomUrl(repo, c, version) == Directory(repo) + UrlPath(c) + "/" + version + "/" + PomFile(c, version)
  {
    UrlPathLayout(c);
    var p := UrlPath(c);
    assert p[|p| - 1] == c.artifact[|c.artifact| - 1];
    var first := PosixPath.JoinStep(repo, p);
    assert first == Directory(repo) + p;
    assert first[|first| - 1] == p[|p| - 1];
    PosixPath.JoinStepRelative(first, version);
    var second := PosixPath.JoinStep(first, version);
    var file := PomFile(c, version);
    assert file == c.artifact + ("-" + version + ".pom");
    assert file[0] == c.artifact[0];
    PosixPath.JoinStepRelative(second, file);
    assert [p, version, file][1..] == [version, file];
    assert [version, file][1..] == [file];
    calc {
      PomUrl(repo, c, version);
      PosixPath.Join(repo, [p, version, file]);
      PosixPath.Join(first, [version, file]);
      PosixPath.Join(second, [file]);
      PosixPath.JoinStep(second, file);
      first + "/" + version + "/" + file;
    }
  }

  /** An empty group, or one starting with '.' or '/', makes the path absolute,
      and the join then drops the repository altogether. */
  lemma AbsolutePathDropsRepository(repo1: string, repo2: string, c: Coordinate, version: string)
    requires c.group == [] || c.group[0] == '.' || c.group[0] == '/'
    ensures MetadataUrl(repo1, c) == MetadataUrl(repo2, c)
    ensures PomUrl(repo1, c, version) == PomUrl(repo2, c, version)
  {
    UrlPathLayout(c);
    var p := UrlPath(c);
    assert PosixPath.IsAbsolute(p);
    PosixPath.JoinRestartsAtAbsolute(repo1, [p, MetadataFile], 0);
    PosixPath.JoinRestartsAtAbsolute(repo2, [p, MetadataFile], 0);
    PosixPath.JoinRestartsAtAbsolute(repo1, [p, version, PomFile(c, version)], 0);
    PosixPath.JoinRestartsAtAbsolute(repo2, [p, version, PomFile(c, version)], 0);
  }

  /** Every candidate ends with its file name. */
  lemma CandidateFileNames(repo: string, c: Coordinate, version: string)
    ensures var m := MetadataUrl(repo, c); |MetadataFile| <= |m| && m[|m| - |MetadataFile|..] == MetadataFile
    ensures var u := PomUrl(repo, c, version); var f := PomFile(c, version);
            |f| <= |u| && u[|u| - |f|..] == f
  {
    PosixPath.JoinEndsWithLast(repo, [UrlPath(c), MetadataFile]);
    PosixPath.JoinEndsWithLast(repo, [UrlPath(c), version, PomFile(c, version)]);
  }

  /** The worked example: org.example:mylib on the default repository, before
      and after the version 1.2 is known. The alias and the version come in
      through the parameters, so the solver meets the literals only where the
      proof needs them. */
  lemma DefaultRepositoryExample(manifest: Manifest, options: Options, before: Fields, after: Fields)
    requires manifest.aliases.Some? && |manifest.aliases.value| > 0
    requires manifest.aliases.value[0] == "org.example:mylib"
    requires "repository" !in options
    requires "version" !in before
    requires "version" in after && after["version"] == "1.2"
    ensures Urls(manifest, options, before) ==
      Success([DefaultRepository + "org/example/mylib" + "/" + "maven-metadata.xml"])
    ensures Urls(manifest, options, after) ==
      Success([DefaultRepository + "org/example/mylib" + "/" + "maven-metadata.xml",
               DefaultRepository + "org/example/mylib" + "/" + "1.2" + "/" + "mylib-1.2.pom"])
  {
    var c := ExampleCoordinate(manifest);
    var repo := GetRepositories(options)[0];
    assert repo == DefaultRepository;
    ExampleUrls(repo, c, after["version"]);
    var meta, pom := MetadataUrl(repo, c), PomUrl(repo, c, after["version"]);
    UrlsLayout(manifest, options, before);
    assert [meta] + [] == [meta];
    UrlsLayout(manifest, options, after);
    assert [meta] + [pom] == [meta, pom];
  }

  /** The worked example's two URLs on the default repository. The literals
      come in through parameters, so the solver meets them only where the proof
      needs them. */
  lemma ExampleUrls(repo: string, c: Coordinate, version: string)
    requires repo == DefaultRepository && version == "1.2"
    requires c.group == "org.example" && c.artifact == "mylib"
    ensures MetadataUrl(repo, c) == DefaultRepository + "org/example/mylib" + "/" + "maven-metadata.xml"
    ensures PomUrl(repo, c, version) == DefaultRepository + "org/example/mylib" + "/" + "1.2" + "/" + "mylib-1.2.pom"
  {
    UrlPathExample(c);
    assert PosixPath.EndsWithSep(repo);
    MetadataUrlUnderRepository(repo, c);
    PomUrlUnderRepository(repo, c, version);
    assert PomFile(c, version) == "mylib-1.2.pom";
  }

  /** A first alias org.example:mylib selects that coordinate. */
  lemma ExampleCoordinate(manifest: Manifest) returns (c: Coordinate)
    requires manifest.aliases.Some? && |manifest.aliases.value| > 0
    requires manifest.aliases.value[0] == "org.example:mylib"
    ensures FindCoordinate(manifest) == Success(c)
    ensures c.group == "org.example" && c.artifact == "mylib"
  {
    var alias := manifest.aliases.value[0];
    CoordinateSplitsAtColon(alias, 11);
    c := Coordinate(alias[..11], alias[12..]);
    assert FirstMavenAlias(manifest.aliases.value) == Some(0);
  }

  // ---------------------------------------------------------------- resolve

  /** resolve returns the parent's answer for the first candidate, with "url"
      set to it, that answers non-empty; None when every candidate is empty. */
  lemma ResolutionIsFirstNonEmpty(manifest: Manifest, parent: Parent, options: Options, result: Fields)
    requires Urls(manifest, options, result).Success?
    ensures var urls := Urls(manifest, options, result).value;
            Resolution(manifest, parent, options, result) == Success(None) <==>
              forall j :: 0 <= j < |urls| ==> parent.resolve(options["url" := urls[j]], result) == []
    ensures var urls := Urls(manifest, options, result).value;
            match Resolution(manifest, parent, options, result)
            case Failure(_) => false
            case Success(None) => true
            case Success(Some(v)) =>
              v != [] &&
              exists i :: 0 <= i < |urls| && v == parent.resolve(options["url" := urls[i]], result) &&
                forall j :: 0 <= j < i ==> parent.resolve(options["url" := urls[j]], result) == []
  {
    var urls := Urls(manifest, options, result).value;
    match FirstHit(parent, options, result, urls)
    case None =>
    case Some(i) =>
      assert Attempt(parent, options, result, urls[i]) != [];
  }

  /** Resolution of versions tries the metadata index first: a non-empty answer
      there is the answer. */
  lemma MetadataIndexWins(manifest: Manifest, parent: Parent, options: Options, result: Fields)
    requires FindCoordinate(manifest).Success?
    requires var url := MetadataUrl(GetRepositories(options)[0], FindCoordinate(manifest).value);
             parent.resolve(options["url" := url], result) != []
    ensures var url := MetadataUrl(GetRepositories(options)[0], FindCoordinate(manifest).value);
            Resolution(manifest, parent, options, result) == Success(Some(parent.resolve(options["url" := url], result)))
  {
    UrlsLayout(manifest, options, result);
  }

  // ---------------------------------------------------------------- detect

  /** A field neither versioned nor in the table leaves the result untouched
      and raises nothing. */
  lemma UnknownFieldIsNoOp(what: string, manifest: Manifest, parent: Parent, ranking: Ranking,
                           options: Options, result: Fields)
    requires !IsVersionField(what) && what !in XPaths
    ensures Detected(what, manifest, parent, ranking, options, result) == Detection(result, Pass)
  {
  }

  /** version / stable_version: on a non-empty version list the ranking pick is
      stored under the field and nothing else changes; otherwise the result is
      untouched and the call raises. */
  lemma VersionFieldOutcome(what: string, manifest: Manifest, parent: Parent, ranking: Ranking,
                            options: Options, result: Fields)
    requires IsVersionField(what)
    ensures var d := Detected(what, manifest, parent, ranking, options, result);
            match Resolution(manifest, parent, options["xpath" := VersionsQuery], result)
            case Failure(e) => d == Detection(result, Fail(e))
            case Success(None) => d == Detection(result, Fail(LengthOfNone))
            case Success(Some(versions)) =>
              |versions| > 0 && d.outcome == Pass &&
              d.entries == result[what := if what == "version" then ranking.findLatest(versions) else ranking.findStable(versions)] &&
              d.entries.Keys == result.Keys + {what} &&
              d.entries[what] == (if what == "version" then ranking.findLatest(versions) else ranking.findStable(versions)) &&
              forall k :: k in result && k != what ==> d.entries[k] == result[k]
  {
    var o := options["xpath" := VersionsQuery];
    match Resolution(manifest, parent, o, result)
    case Failure(_) =>
    case Success(None) =>
    case Success(Some(versions)) =>
      ResolutionIsFirstNonEmpty(manifest, parent, o, result);
  }

  /** Before any version is known, version detection reads the metadata index:
      a non-empty version list there decides the pick, an empty one raises. */
  lemma VersionFromMetadataIndex(what: string, manifest: Manifest, parent: Parent, ranking: Ranking,
                                 options: Options, result: Fields)
    requires IsVersionField(what) && "version" !in result
    requires FindCoordinate(manifest).Success?
    ensures var o := options["xpath" := VersionsQuery];
            var url := MetadataUrl(GetRepositories(options)[0], FindCoordinate(manifest).value);
            var versions := parent.resolve(o["url" := url], result);
            var d := Detected(what, manifest, parent, ranking, options, result);
            if versions == [] then d == Detection(result, Fail(LengthOfNone))
            else d.outcome == Pass && d.entries == result[what :=
              if what == "version" then ranking.findLatest(versions) else ranking.findStable(versions)]
  {
    var o := options["xpath" := VersionsQuery];
    assert GetRepositories(o) == GetRepositories(options);
    UrlsLayout(manifest, o, result);
    var urls := Urls(manifest, o, result).value;
    assert |urls| == 1;
  }

  /** A table field is handed to the parent with "xpath" set to its query; a
      KeyError raised inside the parent is swallowed, any other error escapes. */
  lemma TableFieldDelegates(what: string, manifest: Manifest, parent: Parent, ranking: Ranking,
                            options: Options, result: Fields)
    requires !IsVersionField(what) && what in XPaths
    ensures var p := parent.detect(what, options["xpath" := XPaths[what]], result);
            var d := Detected(what, manifest, parent, ranking, options, result);
            d.entries == p.entries && (d.outcome == Pass <==> p.raised != RaisedOther)
  {
  }

  /** The parent's resolve ignores the result dictionary it is given. */
  ghost predicate IgnoresResult(parent: Parent)
  {
    forall o, f1, f2 :: parent.resolve(o, f1) == parent.resolve(o, f2)
  }

  lemma {:induction false} FirstHitIgnoresResult(parent: Parent, options: Options, f1: Fields, f2: Fields, urls: seq<string>)
    requires IgnoresResult(parent)
    ensures FirstHit(parent, options, f1, urls) == FirstHit(parent, options, f2, urls)
    ensures FirstAnswer(parent, options, f1, urls) == FirstAnswer(parent, options, f2, urls)
  {
    if urls != [] {
      assert Attempt(parent, options, f1, urls[0]) == Attempt(parent, options, f2, urls[0]);
      FirstHitIgnoresResult(parent, options, f1, f2, urls[1..]);
    }
  }

  /** The metadata index of the first repository answers the versions query
      with a non-empty list. */
  ghost predicate MetadataIndexAnswers(manifest: Manifest, parent: Parent, options: Options, result: Fields)
  {
    FindCoordinate(manifest).Success? &&
    var o := options["xpath" := VersionsQuery];
    parent.resolve(o["url" := MetadataUrl(GetRepositories(o)[0], FindCoordinate(manifest).value)], result) != []
  }

  /** Repeating a successful detection of stable_version gives the same result
      again; so does repeating one of version, when no version was known before
      or the metadata index answered. (Otherwise the version list may have come
      from the POM of the old version, and the POM of the new one may differ.) */
  lemma VersionDetectionRepeatable(what: string, manifest: Manifest, parent: Parent, ranking: Ranking,
                                   options: Options, result: Fields)
    requires IsVersionField(what)
    requires what == "stable_version" || "version" !in result || MetadataIndexAnswers(manifest, parent, options, result)
    requires IgnoresResult(parent)
    ensures var d := Detected(what, manifest, parent, ranking, options, result);
            d.outcome == Pass ==> Detected(what, manifest, parent, ranking, options, d.entries) == d
  {
    if what == "stable_version" {
      StableRepeatable(manifest, parent, ranking, options, result);
    } else {
      LatestRepeatable(manifest, parent, ranking, options, result);
    }
  }

  lemma StableRepeatable(manifest: Manifest, parent: Parent, ranking: Ranking, options: Options, result: Fields)
    requires IgnoresResult(parent)
    ensures var d := Detected("stable_version", manifest, parent, ranking, options, result);
            d.outcome == Pass ==> Detected("stable_version", manifest, parent, ranking, options, d.entries) == d
  {
    var what := "stable_version";
    var d := Detected(what, manifest, parent, ranking, options, result);
    if d.outcome == Pass {
      var o := options["xpath" := VersionsQuery];
      var after := d.entries;
      VersionFieldOutcome(what, manifest, parent, ranking, options, result);
      SameVersionSameResolution(manifest, parent, o, result, after);
      VersionFieldOutcome(what, manifest, parent, ranking, options, after);
      assert after[what := after[what]] == after;
    }
  }

  /** Resolution looks at the result only for its "version" entry. */
  lemma SameVersionSameResolution(manifest: Manifest, parent: Parent, options: Options, result: Fields, after: Fields)
    requires IgnoresResult(parent)
    requires "version" in after <==> "version" in result
    requires "version" in result ==> after["version"] == result["version"]
    ensures Resolution(manifest, parent, options, after) == Resolution(manifest, parent, options, result)
  {
    if FindCoordinate(manifest).Success? {
      UrlsLayout(manifest, options, result);
      UrlsLayout(manifest, options, after);
      var urls := Urls(manifest, options, result).value;
      assert Urls(manifest, options, after) == Urls(manifest, options, result);
      FirstHitIgnoresResult(parent, options, result, after, urls);
    }
  }

  lemma LatestRepeatable(manifest: Manifest, parent: Parent, ranking: Ranking, options: Options, result: Fields)
    requires "version" !in result || MetadataIndexAnswers(manifest, parent, options, result)
    requires IgnoresResult(parent)
    ensures var d := Detected("version", manifest, parent, ranking, options, result);
            d.outcome == Pass ==> Detected("version", manifest, parent, ranking, options, d.entries) == d
  {
    var what := "version";
    var d := Detected(what, manifest, parent, ranking, options, result);
    if d.outcome == Pass {
      var o := options["xpath" := VersionsQuery];
      var after := d.entries;
      VersionFieldOutcome(what, manifest, parent, ranking, options, result);
      if "version" !in result {
        MetadataAnswerSurvives(manifest, parent, o, result, after);
      } else {
        MetadataIndexWins(manifest, parent, o, result);
        var url := MetadataUrl(GetRepositories(o)[0], FindCoordinate(manifest).value);
        assert parent.resolve(o["url" := url], after) == parent.resolve(o["url" := url], result);
        MetadataIndexWins(manifest, parent, o, after);
      }
      VersionFieldOutcome(what, manifest, parent, ranking, options, after);
      assert after[what := after[what]] == after;
    }
  }

  /** Before a version is known the only candidate is the metadata index; once
      it has answered, it answers first again whatever the result holds. */
  lemma MetadataAnswerSurvives(manifest: Manifest, parent: Parent, options: Options, result: Fields, after: Fields)
    requires "version" !in result
    requires IgnoresResult(parent)
    requires Resolution(manifest, parent, options, result).Success?
    requires Resolution(manifest, parent, options, result).value.Some?
    ensures Resolution(manifest, parent, options, after) == Resolution(manifest, parent, options, result)
  {
    UrlsLayout(manifest, options, result);
    var urls := Urls(manifest, options, result).value;
    var url := MetadataUrl(GetRepositories(options)[0], FindCoordinate(manifest).value);
    assert urls == [url];
    assert FirstHit(parent, options, result, urls) == Some(0);
    assert parent.resolve(options["url" := url], after) == parent.resolve(options["url" := url], result);
    MetadataIndexWins(manifest, parent, options, after);
  }
}
