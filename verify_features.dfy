/** The `verify-features` goal (VerifyFeatureResolutionMojo): choose the features to
    check, restrict them by the `features` globs, add the framework properties, then ask
    the resolver about each feature in turn under the `fail` policy.

    Loading the repositories, the download manager, the resolver and the other library
    calls are parameters: `Environment` holds them as functions that return a value or
    the exception they throw. */
module VerifyFeatureResolution {
  import opened Wrappers
  import opened JavaStrings
  import opened Exceptions
  import opened FeaturePattern
  import opened Diagnostics
  import opened SystemBundle

  /** A Karaf feature, known by name and version. */
  datatype Feature = Feature(name: string, version: string)

  /** The id the mojo logs and matches: `name/version`. */
  function Id(f: Feature): string {
    f.name + "/" + f.version
  }

  function Ids(features: seq<Feature>): (ids: seq<string>)
    ensures |ids| == |features|
    ensures forall i :: 0 <= i < |features| ==> ids[i] == Id(features[i])
  {
    seq(|features|, i requires 0 <= i < |features| => Id(features[i]))
  }

  /** A loaded features repository: its URI and the features it declares, in order. */
  datatype Repository = Repository(uri: string, features: seq<Feature>)

  /** The loaded repositories are the entries of a map keyed by URI: no URI twice. */
  predicate DistinctUris(loaded: seq<Repository>) {
    forall i, j :: 0 <= i < j < |loaded| ==> loaded[i].uri != loaded[j].uri
  }

  /** The shared `Hashtable<String, String>` of properties. */
  type Properties = map<string, string>

  const FeatureUnderTest := "feature.totest"
  const FrameworkPrefix := "feature.framework."

  /** The mojo's parameters. `features` stands for a null or empty set alike; a null
      `framework` set is None. Sets are given in their iteration order. */
  datatype Settings = Settings(
    descriptors: seq<string>,
    features: seq<string>,
    framework: Option<seq<string>>,
    distribution: string,
    javase: Option<string>,
    distDir: Option<string>,
    fail: string,
    verifyTransitive: bool)

  /** What the mojo consults beyond its parameters. */
  datatype Environment = Environment(
    /** `pluginDescriptor.getArtifactMap()` */
    artifacts: map<string, Artifact>,
    /** `System.getProperty("java.specification.version")` */
    jvmSpecificationVersion: string,
    /** the calls of `getSystemBundleResource` */
    loader: Loader,
    /** `getResolveOptionalImports(properties)`, or what it throws */
    resolveOptionalImports: Properties -> Result<bool, Exception>,
    /** `builder.download(...)` over the prefixed property groups: the keys of the
        downloaded resources, or what it throws */
    download: Properties -> Result<set<string>, Exception>,
    /** `builder.resolve(systemBundle, resolveOptionalImports)`: None when it returns */
    resolve: (Properties, Headers, bool) -> Option<Exception>)

  // ---------------------------------------------------------------------------
  // Candidate features
  // ---------------------------------------------------------------------------

  /** `allFeatures.get(uri)`: the features of the first repository loaded from `uri`. */
  function Lookup(loaded: seq<Repository>, uri: string): Option<seq<Feature>> {
    if loaded == [] then None
    else if loaded[0].uri == uri then Some(loaded[0].features)
    else Lookup(loaded[1..], uri)
  }

  /** A lookup succeeds exactly when some repository was loaded from the URI, and then
      yields that repository's features. */
  lemma {:induction false} LookupFinds(loaded: seq<Repository>, uri: string)
    ensures Lookup(loaded, uri).Some? ==>
      exists i :: 0 <= i < |loaded| && loaded[i].uri == uri && loaded[i].features == Lookup(loaded, uri).value
    ensures Lookup(loaded, uri).None? ==> forall i :: 0 <= i < |loaded| ==> loaded[i].uri != uri
  {
    if loaded != [] && loaded[0].uri != uri {
      LookupFinds(loaded[1..], uri);
      if Lookup(loaded, uri).Some? {
        var i :| 0 <= i < |loaded[1..]| && loaded[1..][i].uri == uri && loaded[1..][i].features == Lookup(loaded, uri).value;
        assert loaded[i + 1] == loaded[1..][i];
      } else {
        forall i | 0 <= i < |loaded| ensures loaded[i].uri != uri {
          if i > 0 {
            assert loaded[i] == loaded[1..][i - 1];
          }
        }
      }
    }
  }

  /** The features of every loaded repository, repository after repository. */
  function AllFeatures(loaded: seq<Repository>): seq<Feature> {
    if loaded == [] then []
    else AllFeatures(loaded[..|loaded| - 1]) + loaded[|loaded| - 1].features
  }

  /** The features of the requested descriptors, descriptor after descriptor; a
      descriptor that was not loaded makes `Arrays.asList(null)` throw. */
  function RequestedFeatures(loaded: seq<Repository>, descriptors: seq<string>): Result<seq<Feature>, Exception> {
    if descriptors == [] then Success([])
    else
      match RequestedFeatures(loaded, descriptors[..|descriptors| - 1])
      case Failure(e) => Failure(e)
      case Success(earlier) =>
        match Lookup(loaded, descriptors[|descriptors| - 1])
        case None => Failure(NullPointer)
        case Some(more) => Success(earlier + more)
  }

  /** The candidates before filtering. */
  function Candidates(s: Settings, loaded: seq<Repository>): Result<seq<Feature>, Exception> {
    if s.verifyTransitive then Success(AllFeatures(loaded)) else RequestedFeatures(loaded, s.descriptors)
  }

  lemma {:induction false} RequestedPrefixFailure(loaded: seq<Repository>, descriptors: seq<string>, n: nat)
    requires n <= |descriptors|
    requires RequestedFeatures(loaded, descriptors[..n]).Failure?
    ensures RequestedFeatures(loaded, descriptors) == RequestedFeatures(loaded, descriptors[..n])
    decreases |descriptors| - n
  {
    if n < |descriptors| {
      var m := |descriptors| - 1;
      assert descriptors[..m][..n] == descriptors[..n];
      RequestedPrefixFailure(loaded, descriptors[..m], n);
      assert descriptors[..m] == descriptors[..m];
    } else {
      assert descriptors[..n] == descriptors;
    }
  }

  /** The `featuresToTest.addAll` loops of `execute`. */
  method SelectCandidates(loaded: seq<Repository>, descriptors: seq<string>, verifyTransitive: bool)
    returns (r: Result<seq<Feature>, Exception>)
    requires DistinctUris(loaded)
    ensures verifyTransitive ==> r == Success(AllFeatures(loaded))
    ensures !verifyTransitive ==> r == RequestedFeatures(loaded, descriptors)
  {
    var featuresToTest: seq<Feature> := [];
    if verifyTransitive {
      for i := 0 to |loaded|
        invariant featuresToTest == AllFeatures(loaded[..i])
      {
        assert loaded[..i + 1][..i] == loaded[..i];
        featuresToTest := featuresToTest + loaded[i].features;
      }
      assert loaded[..|loaded|] == loaded;
    } else {
      for i := 0 to |descriptors|
        invariant RequestedFeatures(loaded, descriptors[..i]) == Success(featuresToTest)
      {
        assert descriptors[..i + 1][..i] == descriptors[..i];
        var features := Lookup(loaded, descriptors[i]);
        if features.None? {
          RequestedPrefixFailure(loaded, descriptors, i + 1);
          return Failure(NullPointer);
        }
        featuresToTest := featuresToTest + features.value;
      }
      assert descriptors[..|descriptors|] == descriptors;
    }
    return Success(featuresToTest);
  }

  /** With `verifyTransitive` the candidates are exactly the features of the loaded
      repositories. */
  lemma {:induction false} AllFeaturesMembers(loaded: seq<Repository>, f: Feature)
    ensures f in AllFeatures(loaded) <==> exists i :: 0 <= i < |loaded| && f in loaded[i].features
  {
    if loaded != [] {
      var m := |loaded| - 1;
      AllFeaturesMembers(loaded[..m], f);
      if exists i :: 0 <= i < |loaded| && f in loaded[i].features {
        var i :| 0 <= i < |loaded| && f in loaded[i].features;
        if i < m {
          assert loaded[..m][i] == loaded[i];
        }
      }
    }
  }

  /** Without it, the candidates exist exactly when every descriptor was loaded... */
  lemma {:induction false} RequestedFeaturesDefined(loaded: seq<Repository>, descriptors: seq<string>)
    ensures RequestedFeatures(loaded, descriptors).Success?
        <==> forall j :: 0 <= j < |descriptors| ==> Lookup(loaded, descriptors[j]).Some?
  {
    if descriptors != [] {
      var m := |descriptors| - 1;
      RequestedFeaturesDefined(loaded, descriptors[..m]);
      assert forall j :: 0 <= j < m ==> descriptors[..m][j] == descriptors[j];
    }
  }

  /** ...and are then the features of the requested repositories. */
  lemma {:induction false} RequestedFeaturesMembers(loaded: seq<Repository>, descriptors: seq<string>, f: Feature)
    requires RequestedFeatures(loaded, descriptors).Success?
    ensures f in RequestedFeatures(loaded, descriptors).value <==>
            exists j :: 0 <= j < |descriptors| && Lookup(loaded, descriptors[j]).Some? && f in Lookup(loaded, descriptors[j]).value
  {
    if descriptors != [] {
      var m := |descriptors| - 1;
      var init := descriptors[..m];
      RequestedFeaturesDefined(loaded, descriptors);
      RequestedFeaturesMembers(loaded, init, f);
      var earlier := RequestedFeatures(loaded, init).value;
      var last := Lookup(loaded, descriptors[m]).value;
      assert RequestedFeatures(loaded, descriptors).value == earlier + last;
      if exists j :: 0 <= j < |descriptors| && Lookup(loaded, descriptors[j]).Some? && f in Lookup(loaded, descriptors[j]).value {
        var j :| 0 <= j < |descriptors| && Lookup(loaded, descriptors[j]).Some? && f in Lookup(loaded, descriptors[j]).value;
        if j < m {
          assert init[j] == descriptors[j];
        }
      }
      if f in earlier {
        var j :| 0 <= j < m && Lookup(loaded, init[j]).Some? && f in Lookup(loaded, init[j]).value;
        assert init[j] == descriptors[j];
      }
    }
  }

  /** Every requested candidate is also a candidate under `verifyTransitive`. */
  lemma RequestedWithinAll(loaded: seq<Repository>, descriptors: seq<string>, f: Feature)
    requires RequestedFeatures(loaded, descriptors).Success?
    requires f in RequestedFeatures(loaded, descriptors).value
    ensures f in AllFeatures(loaded)
  {
    RequestedFeaturesDefined(loaded, descriptors);
    RequestedFeaturesMembers(loaded, descriptors, f);
    var j :| 0 <= j < |descriptors| && Lookup(loaded, descriptors[j]).Some? && f in Lookup(loaded, descriptors[j]).value;
    LookupFinds(loaded, descriptors[j]);
    var i :| 0 <= i < |loaded| && loaded[i].uri == descriptors[j] && loaded[i].features == Lookup(loaded, descriptors[j]).value;
    AllFeaturesMembers(loaded, f);
  }

  // ---------------------------------------------------------------------------
  // Filtering by the `features` globs
  // ---------------------------------------------------------------------------

  /** The candidates some token selects, in their original order. */
  function SelectedFeatures(candidates: seq<Feature>, tokens: seq<string>): seq<Feature> {
    if candidates == [] then []
    else
      var last := candidates[|candidates| - 1];
      var init := SelectedFeatures(candidates[..|candidates| - 1], tokens);
      if Selected(tokens, Id(last)) then init + [last] else init
  }

  /** The compiled pattern accepts an id exactly when a token selects it. */
  lemma PatternDecides(tokens: seq<string>, id: string)
    requires tokens != [] && PlainTokens(tokens)
    ensures Compile(PatternText(tokens)).Some?
    ensures Matches(Compile(PatternText(tokens)).value, id) <==> Selected(tokens, id)
  {
    PatternMeansGlobs(tokens);
  }

  /** One turn of the filter loop: the candidate under the cursor is the next one, and
      removing it or stepping past it leaves the same shape one candidate further. */
  lemma FilterStep(candidates: seq<Feature>, tokens: seq<string>, j: nat, current: seq<Feature>)
    requires j < |candidates|
    requires current == SelectedFeatures(candidates[..j], tokens) + candidates[j..]
    ensures var i := |SelectedFeatures(candidates[..j], tokens)|;
      && i < |current| && current[i] == candidates[j]
      && (Selected(tokens, Id(candidates[j])) ==>
            current == SelectedFeatures(candidates[..j + 1], tokens) + candidates[j + 1..]
            && i + 1 == |SelectedFeatures(candidates[..j + 1], tokens)|)
      && (!Selected(tokens, Id(candidates[j])) ==>
            current[..i] + current[i + 1..] == SelectedFeatures(candidates[..j + 1], tokens) + candidates[j + 1..]
            && i == |SelectedFeatures(candidates[..j + 1], tokens)|)
  {
    var kept := SelectedFeatures(candidates[..j], tokens);
    assert candidates[..j + 1][..j] == candidates[..j];
    assert candidates[j..] == [candidates[j]] + candidates[j + 1..];
    if !Selected(tokens, Id(candidates[j])) {
      assert current[..|kept|] == kept;
      assert current[|kept| + 1..] == candidates[j + 1..];
    }
  }

  /** The iterator loop of `execute` that removes every candidate whose id the
      compiled pattern does not match. */
  method FilterFeatures(candidates: seq<Feature>, tokens: seq<string>) returns (featuresToTest: seq<Feature>)
    requires tokens != [] && PlainTokens(tokens)
    ensures featuresToTest == SelectedFeatures(candidates, tokens)
  {
    var text := BuildPattern(tokens);
    PatternDecides(tokens, []);
    var pattern := Compile(text).value;
    featuresToTest := candidates;
    var i := 0;
    ghost var j := 0;
    while i < |featuresToTest|
      invariant 0 <= j <= |candidates|
      invariant featuresToTest == SelectedFeatures(candidates[..j], tokens) + candidates[j..]
      invariant i == |SelectedFeatures(candidates[..j], tokens)|
      decreases |featuresToTest| - i
    {
      FilterStep(candidates, tokens, j, featuresToTest);
      var feature := featuresToTest[i];
      var id := feature.name + "/" + feature.version;
      PatternDecides(tokens, id);
      if !Matches(pattern, id) {
        featuresToTest := featuresToTest[..i] + featuresToTest[i + 1..];
      } else {
        i := i + 1;
      }
      j := j + 1;
    }
    assert candidates[..j] == candidates;
  }

  /** A candidate stays exactly when some token selects its id. */
  lemma {:induction false} SelectedFeaturesMembers(candidates: seq<Feature>, tokens: seq<string>, f: Feature)
    ensures f in SelectedFeatures(candidates, tokens) <==> f in candidates && Selected(tokens, Id(f))
  {
    if candidates != [] {
      var m := |candidates| - 1;
      SelectedFeaturesMembers(candidates[..m], tokens, f);
      assert candidates == candidates[..m] + [candidates[m]];
    }
  }

  /** Filtering keeps the relative order: it works piecewise. */
  lemma {:induction false} SelectedFeaturesAppend(a: seq<Feature>, b: seq<Feature>, tokens: seq<string>)
    ensures SelectedFeatures(a + b, tokens) == SelectedFeatures(a, tokens) + SelectedFeatures(b, tokens)
  {
    if b == [] {
      assert a + b == a;
    } else {
      var m := |b| - 1;
      assert (a + b)[..|a + b| - 1] == a + b[..m];
      SelectedFeaturesAppend(a, b[..m], tokens);
    }
  }

  /** The features the mojo goes on to verify. */
  function FeaturesToTest(s: Settings, candidates: seq<Feature>): seq<Feature> {
    if s.features == [] then candidates else SelectedFeatures(candidates, s.features)
  }

  // ---------------------------------------------------------------------------
  // Framework properties
  // ---------------------------------------------------------------------------

  function FrameworkKey(fmk: string): string {
    FrameworkPrefix + fmk
  }

  /** `k` is the property some framework of the list sets. */
  predicate IsFrameworkKey(framework: seq<string>, k: string) {
    StartsWith(k, FrameworkPrefix) && k[|FrameworkPrefix|..] in framework
  }

  /** The properties after `properties.put("feature.framework." + fmk, fmk)` for each
      framework in turn. */
  function WithFrameworks(properties: Properties, framework: seq<string>): Properties {
    if framework == [] then properties
    else
      var last := framework[|framework| - 1];
      WithFrameworks(properties, framework[..|framework| - 1])[FrameworkKey(last) := last]
  }

  lemma FrameworkKeyParts(fmk: string)
    ensures StartsWith(FrameworkKey(fmk), FrameworkPrefix)
    ensures FrameworkKey(fmk)[|FrameworkPrefix|..] == fmk
  {
  }

  /** Each framework `fmk` maps `feature.framework.fmk` to `fmk`; no other property
      changes and none appears. */
  lemma {:induction false} WithFrameworksSpec(properties: Properties, framework: seq<string>)
    ensures forall fmk :: fmk in framework ==>
      FrameworkKey(fmk) in WithFrameworks(properties, framework) && WithFrameworks(properties, framework)[FrameworkKey(fmk)] == fmk
    ensures forall k :: k in WithFrameworks(properties, framework) <==> k in properties || IsFrameworkKey(framework, k)
    ensures forall k :: k in properties && !IsFrameworkKey(framework, k) ==> WithFrameworks(properties, framework)[k] == properties[k]
  {
    if framework != [] {
      var m := |framework| - 1;
      var init, last := framework[..m], framework[m];
      WithFrameworksSpec(properties, init);
      FrameworkKeyParts(last);
      assert framework == init + [last];
      forall fmk | fmk in framework
        ensures WithFrameworks(properties, framework)[FrameworkKey(fmk)] == fmk
      {
        FrameworkKeyParts(fmk);
      }
      forall k ensures IsFrameworkKey(framework, k) <==> IsFrameworkKey(init, k) || k == FrameworkKey(last) {
        if StartsWith(k, FrameworkPrefix) {
          assert k == FrameworkPrefix + k[|FrameworkPrefix|..];
        }
      }
    }
  }

  /** The framework loop of `execute`. */
  method InjectFrameworks(properties: Properties, framework: seq<string>) returns (updated: Properties)
    ensures updated == WithFrameworks(properties, framework)
  {
    updated := properties;
    for i := 0 to |framework|
      invariant updated == WithFrameworks(properties, framework[..i])
    {
      var fmk := framework[i];
      assert framework[..i + 1][..i] == framework[..i];
      updated := updated["feature.framework." + fmk := fmk];
    }
    assert framework[..|framework|] == framework;
  }

  // ---------------------------------------------------------------------------
  // Verifying one feature
  // ---------------------------------------------------------------------------

  /** The outer catch of `verifyResolution`: a MojoExecutionException passes through,
      anything else is wrapped as an error verifying the feature. */
  function Wrap(feature: string, e: Exception): Exception {
    if e.MojoExecution? then e
    else MojoExecution("Error verifying feature " + feature + "\nMessage: " + Text(MessageOf(e)), Some(e))
  }

  /** The exception for a failed resolution, naming the feature, the resolver's
      message, the repositories and the downloaded resources. */
  function ResolutionFailure(feature: string, cause: Exception, repositories: seq<string>, resources: seq<string>): Exception {
    MojoExecution("Feature resolution failed for " + feature
                  + "\nMessage: " + Text(MessageOf(cause))
                  + "\nRepositories: " + Listing(repositories)
                  + "\nResources: " + Listing(resources),
                  Some(cause))
  }

  /** What verifying `feature` throws (None: nothing), given the properties as they are
      once `feature.totest` is set. */
  ghost function Outcome(env: Environment, s: Settings, repositoryUris: set<string>, feature: string,
                         properties: Properties): Option<Exception>
  {
    match env.resolveOptionalImports(properties)
    case Failure(e) => Some(Wrap(feature, e))
    case Success(optional) =>
      match env.download(properties)
      case Failure(e) => Some(Wrap(feature, e))
      case Success(downloaded) =>
        match SystemBundleOutcome(env.loader, env.artifacts, s.distribution, s.distDir, s.javase, env.jvmSpecificationVersion)
        case Failure(e) => Some(Wrap(feature, e))
        case Success(headers) =>
          match env.resolve(properties, headers, optional)
          case None => None
          case Some(e) => Some(ResolutionFailure(feature, e, SortedSeq(repositoryUris), SortedSeq(downloaded)))
  }

  /** The exception of the first step before resolution that throws, if one does:
      reading `resolveOptionalImports`, the download, or building the system bundle. */
  function StepFailure(env: Environment, s: Settings, properties: Properties): Option<Exception> {
    if env.resolveOptionalImports(properties).Failure? then Some(env.resolveOptionalImports(properties).error)
    else if env.download(properties).Failure? then Some(env.download(properties).error)
    else
      match SystemBundleOutcome(env.loader, env.artifacts, s.distribution, s.distDir, s.javase, env.jvmSpecificationVersion)
      case Failure(e) => Some(e)
      case Success(_) => None
  }

  /** `verifyResolution`: record the feature under test in the shared properties, then
      download, build the system bundle and resolve. */
  method VerifyResolution(env: Environment, s: Settings, repositoryUris: set<string>, feature: string,
                          properties: Properties)
    returns (updated: Properties, failure: Option<Exception>)
    ensures updated == properties[FeatureUnderTest := feature]
    ensures failure == Outcome(env, s, repositoryUris, feature, updated)
  {
    updated := properties["feature.totest" := feature];
    var resolveOptionalImports := env.resolveOptionalImports(updated);
    if resolveOptionalImports.Failure? {
      return updated, Some(Wrap(feature, resolveOptionalImports.error));
    }
    var downloaded := env.download(updated);
    if downloaded.Failure? {
      return updated, Some(Wrap(feature, downloaded.error));
    }
    var systemBundle := SystemBundleResource(env.loader, env.artifacts, s.distribution, s.distDir, s.javase,
                                             env.jvmSpecificationVersion);
    if systemBundle.Failure? {
      return updated, Some(Wrap(feature, systemBundle.error));
    }
    var resolved := env.resolve(updated, systemBundle.value, resolveOptionalImports.value);
    if resolved.None? {
      return updated, None;
    }
    var repositories := SortedElements(repositoryUris);
    var resources := SortedElements(downloaded.value);
    var repositoriesText := CollectionToString(repositories);
    var resourcesText := CollectionToString(resources);
    var e := resolved.value;
    failure := Some(MojoExecution("Feature resolution failed for " + feature
                                  + "\nMessage: " + Text(MessageOf(e))
                                  + "\nRepositories: " + repositoriesText
                                  + "\nResources: " + resourcesText,
                                  Some(e)));
  }

  /** Every failure is a MojoExecutionException about the feature. A failed resolution
      names the feature; an exception from an earlier step is wrapped as an error
      verifying the feature, unless it already was a MojoExecutionException, which
      passes through unchanged. */
  lemma OutcomeNamesFeature(env: Environment, s: Settings, repositoryUris: set<string>, feature: string,
                            properties: Properties)
    requires Outcome(env, s, repositoryUris, feature, properties).Some?
    ensures Outcome(env, s, repositoryUris, feature, properties).value.MojoExecution?
    ensures StepFailure(env, s, properties).None? ==>
      StartsWith(Outcome(env, s, repositoryUris, feature, properties).value.message, "Feature resolution failed for " + feature)
    ensures StepFailure(env, s, properties).Some? && !StepFailure(env, s, properties).value.MojoExecution? ==>
      StartsWith(Outcome(env, s, repositoryUris, feature, properties).value.message, "Error verifying feature " + feature)
    ensures StepFailure(env, s, properties).Some? && StepFailure(env, s, properties).value.MojoExecution? ==>
      Outcome(env, s, repositoryUris, feature, properties) == StepFailure(env, s, properties)
  {
    var e := Outcome(env, s, repositoryUris, feature, properties).value;
    var head := "Feature resolution failed for " + feature;
    var wrapped := "Error verifying feature " + feature;
    var step := StepFailure(env, s, properties);
    if step.None? {
      assert e.message[..|head|] == head;
    } else if !step.value.MojoExecution? {
      assert e == Wrap(feature, step.value);
      assert e.message[..|wrapped|] == wrapped;
    }
  }

  /** A failed resolution lists the repository URIs and the downloaded resources as
      sorted, repeat-free listings that read back as exactly those sets. */
  lemma ResolutionFailureLists(feature: string, cause: Exception, repositoryUris: set<string>, downloaded: set<string>)
    requires forall u :: u in repositoryUris ==> '\n' !in u
    requires forall k :: k in downloaded ==> '\n' !in k
    ensures var repositories, resources := SortedSeq(repositoryUris), SortedSeq(downloaded);
      && ResolutionFailure(feature, cause, repositories, resources).message
         == "Feature resolution failed for " + feature + "\nMessage: " + Text(MessageOf(cause))
            + "\nRepositories: " + Listing(repositories) + "\nResources: " + Listing(resources)
      && ParseListing(Listing(repositories)) == Some(repositories)
      && StrictlySorted(repositories) && (forall u :: u in repositories <==> u in repositoryUris)
      && ParseListing(Listing(resources)) == Some(resources)
      && StrictlySorted(resources) && (forall k :: k in resources <==> k in downloaded)
  {
    var repositories, resources := SortedSeq(repositoryUris), SortedSeq(downloaded);
    assert forall i :: 0 <= i < |repositories| ==> repositories[i] in repositoryUris;
    assert forall i :: 0 <= i < |resources| ==> resources[i] in downloaded;
    ListingRoundTrip(repositories);
    ListingRoundTrip(resources);
  }

  // ---------------------------------------------------------------------------
  // The failure policy
  // ---------------------------------------------------------------------------

  /** What verifying each feature throws. Only `feature.totest` differs from one
      verification to the next, and the library calls are taken to be functions of
      their arguments (the shared download manager's cache does not change what they
      return), so each outcome depends on that feature alone. */
  ghost function Outcomes(env: Environment, s: Settings, repositoryUris: set<string>, features: seq<Feature>,
                          properties: Properties): (outcomes: seq<Option<Exception>>)
    ensures |outcomes| == |features|
    ensures forall i :: 0 <= i < |features| ==>
      outcomes[i] == Outcome(env, s, repositoryUris, Id(features[i]), properties[FeatureUnderTest := Id(features[i])])
  {
    seq(|features|, i requires 0 <= i < |features| =>
      Outcome(env, s, repositoryUris, Id(features[i]), properties[FeatureUnderTest := Id(features[i])]))
  }

  /** The exceptions thrown, in verification order. */
  function Failures(outcomes: seq<Option<Exception>>): (failures: seq<Exception>)
    ensures failures == [] <==> forall i :: 0 <= i < |outcomes| ==> outcomes[i].None?
  {
    if outcomes == [] then []
    else
      var m := |outcomes| - 1;
      var earlier := Failures(outcomes[..m]);
      assert forall i :: 0 <= i < m ==> outcomes[..m][i] == outcomes[i];
      match outcomes[m]
      case None => earlier
      case Some(e) => earlier + [e]
  }

  /** The position of the first failing feature, if any. */
  function FirstFailure(outcomes: seq<Option<Exception>>): (k: Option<nat>)
    ensures k.None? <==> forall i :: 0 <= i < |outcomes| ==> outcomes[i].None?
    ensures k.Some? ==> k.value < |outcomes| && outcomes[k.value].Some?
                        && forall i :: 0 <= i < k.value ==> outcomes[i].None?
  {
    if outcomes == [] then None
    else if outcomes[0].Some? then Some(0)
    else
      match FirstFailure(outcomes[1..])
      case None => None
      case Some(k) => Some(k + 1)
  }

  /** The exception thrown at the end under `fail = end`. */
  function Aggregate(failures: seq<Exception>): Exception {
    MojoExecution("Verification failures", Some(Multi("Verification failures", failures)))
  }

  /** The ids verified and the exception thrown, for each value of `fail`:
      - `first`: verification stops at the first failure, whose exception is rethrown;
      - `end`: everything is verified and the failures, if any, are thrown together;
      - anything else: everything is verified and nothing is thrown. */
  predicate PolicyOutcome(fail: string, ids: seq<string>, outcomes: seq<Option<Exception>>,
                          verified: seq<string>, thrown: Option<Exception>)
    requires |outcomes| == |ids|
  {
    if fail == "first" then
      match FirstFailure(outcomes)
      case None => verified == ids && thrown == None
      case Some(k) => verified == ids[..k + 1] && thrown == outcomes[k]
    else if fail == "end" then
      verified == ids && thrown == (if Failures(outcomes) == [] then None else Some(Aggregate(Failures(outcomes))))
    else
      verified == ids && thrown == None
  }

  /** The verification loop of `execute`. `verified` lists the ids handed to
      `verifyResolution`, in order. */
  method VerifyAll(env: Environment, s: Settings, repositoryUris: set<string>, features: seq<Feature>,
                   properties: Properties)
    returns (verified: seq<string>, updated: Properties, thrown: Option<Exception>)
    ensures PolicyOutcome(s.fail, Ids(features), Outcomes(env, s, repositoryUris, features, properties), verified, thrown)
    ensures updated == if verified == [] then properties
                       else properties[FeatureUnderTest := verified[|verified| - 1]]
  {
    ghost var outcomes := Outcomes(env, s, repositoryUris, features, properties);
    verified, updated, thrown := [], properties, None;
    var failures: seq<Exception> := [];
    for i := 0 to |features|
      invariant verified == Ids(features)[..i]
      invariant failures == Failures(outcomes[..i])
      invariant s.fail == "first" ==> failures == []
      invariant updated == if i == 0 then properties else properties[FeatureUnderTest := Id(features[i - 1])]
    {
      var feature := features[i];
      var id := feature.name + "/" + feature.version;
      var failure;
      VerifyAllStep(features, properties, i, updated, verified);
      updated, failure := VerifyResolution(env, s, repositoryUris, id, updated);
      FailuresStep(outcomes, i);
      verified := verified + [id];
      if failure.Some? {
        failures := failures + [failure.value];
        if s.fail == "first" {
          thrown := failure;
          PolicyStopsAtFirst(s.fail, Ids(features), outcomes, i, verified, thrown);
          return;
        }
      }
    }
    if s.fail == "end" && |failures| > 0 {
      thrown := Some(MojoExecution("Verification failures", Some(Multi("Verification failures", failures))));
    }
    PolicyRunsToEnd(s.fail, Ids(features), outcomes, failures, verified, thrown);
  }

  lemma PolicyStopsAtFirst(fail: string, ids: seq<string>, outcomes: seq<Option<Exception>>, i: nat,
                           verified: seq<string>, thrown: Option<Exception>)
    requires |outcomes| == |ids| && i < |ids|
    requires fail == "first" && outcomes[i].Some? && Failures(outcomes[..i]) == []
    requires verified == ids[..i + 1] && thrown == outcomes[i]
    ensures PolicyOutcome(fail, ids, outcomes, verified, thrown)
  {
    FirstFailureAt(outcomes, i);
  }

  lemma PolicyRunsToEnd(fail: string, ids: seq<string>, outcomes: seq<Option<Exception>>, failures: seq<Exception>,
                        verified: seq<string>, thrown: Option<Exception>)
    requires |outcomes| == |ids|
    requires verified == ids[..|ids|] && failures == Failures(outcomes[..|ids|])
    requires fail == "first" ==> failures == []
    requires thrown == if fail == "end" && |failures| > 0 then Some(Aggregate(failures)) else None
    ensures PolicyOutcome(fail, ids, outcomes, verified, thrown)
  {
    assert outcomes[..|ids|] == outcomes;
    assert ids[..|ids|] == ids;
  }

  /** Before verifying the `i`th feature: setting `feature.totest` again forgets the
      previous feature, and its id extends the verified prefix. */
  lemma VerifyAllStep(features: seq<Feature>, properties: Properties, i: nat, current: Properties,
                      verified: seq<string>)
    requires i < |features|
    requires current == if i == 0 then properties else properties[FeatureUnderTest := Id(features[i - 1])]
    requires verified == Ids(features)[..i]
    ensures current[FeatureUnderTest := Id(features[i])] == properties[FeatureUnderTest := Id(features[i])]
    ensures verified + [Id(features[i])] == Ids(features)[..i + 1]
  {
  }

  lemma FailuresStep(outcomes: seq<Option<Exception>>, i: nat)
    requires i < |outcomes|
    ensures Failures(outcomes[..i + 1])
         == Failures(outcomes[..i]) + (if outcomes[i].Some? then [outcomes[i].value] else [])
  {
    assert outcomes[..i + 1][..i] == outcomes[..i];
  }

  /** A failure with none before it is the first one. */
  lemma FirstFailureAt(outcomes: seq<Option<Exception>>, i: nat)
    requires i < |outcomes| && outcomes[i].Some?
    requires Failures(outcomes[..i]) == []
    ensures FirstFailure(outcomes) == Some(i)
  {
    assert forall j :: 0 <= j < i ==> outcomes[..i][j] == outcomes[j];
  }

  /** The aggregate lists one exception per failing feature. */
  lemma {:induction false} FailuresCount(outcomes: seq<Option<Exception>>)
    ensures |Failures(outcomes)| == |set i | 0 <= i < |outcomes| && outcomes[i].Some?|
  {
    if outcomes != [] {
      var m := |outcomes| - 1;
      var init := outcomes[..m];
      FailuresCount(init);
      var before := set i | 0 <= i < m && init[i].Some?;
      var all := set i | 0 <= i < |outcomes| && outcomes[i].Some?;
      if outcomes[m].Some? {
        assert all == before + {m};
      } else {
        assert all == before;
      }
    }
  }

  /** An exception is in the aggregate exactly when some feature's verification
      threw it. */
  lemma {:induction false} FailuresMembers(outcomes: seq<Option<Exception>>, e: Exception)
    ensures e in Failures(outcomes) <==> exists i :: 0 <= i < |outcomes| && outcomes[i] == Some(e)
  {
    if outcomes != [] {
      var m := |outcomes| - 1;
      FailuresMembers(outcomes[..m], e);
      assert forall i :: 0 <= i < m ==> outcomes[..m][i] == outcomes[i];
    }
  }

  // ---------------------------------------------------------------------------
  // The goal
  // ---------------------------------------------------------------------------

  function RepositoryUris(loaded: seq<Repository>): set<string> {
    set r | r in loaded :: r.uri
  }

  /** `execute`, from the loaded repositories and the additional metadata on.
      `verified` lists the ids handed to `verifyResolution`; `thrown` is what escapes. */
  method Execute(s: Settings, env: Environment, loaded: seq<Repository>, metadata: Properties)
    returns (verified: seq<string>, thrown: Option<Exception>)
    requires PlainTokens(s.features)
    requires DistinctUris(loaded)
    ensures Candidates(s, loaded).Failure? ==> verified == [] && thrown == Some(Candidates(s, loaded).error)
    ensures Candidates(s, loaded).Success? && s.framework.None? ==> verified == [] && thrown == Some(NullPointer)
    ensures Candidates(s, loaded).Success? && s.framework.Some? ==>
      var toTest := FeaturesToTest(s, Candidates(s, loaded).value);
      PolicyOutcome(s.fail, Ids(toTest),
                    Outcomes(env, s, RepositoryUris(loaded), toTest, WithFrameworks(metadata, s.framework.value)),
                    verified, thrown)
  {
    var properties := metadata;
    var candidates := SelectCandidates(loaded, s.descriptors, s.verifyTransitive);
    if candidates.Failure? {
      return [], Some(candidates.error);
    }
    var featuresToTest := candidates.value;
    if |s.features| > 0 {
      featuresToTest := FilterFeatures(featuresToTest, s.features);
    }
    if s.framework.None? {
      return [], Some(NullPointer);
    }
    properties := InjectFrameworks(properties, s.framework.value);
    var repositoryUris := set r | r in loaded :: r.uri;
    var finalProperties;
    verified, finalProperties, thrown := VerifyAll(env, s, repositoryUris, featuresToTest, properties);
  }
}
