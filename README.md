# fabric8: feature verification, profile display and Java container configuration

A Dafny model of three pieces of fabric8 (Java):

- **The `verify-features` Maven goal** (`VerifyFeatureResolutionMojo`). It works in four steps:
  - It picks the candidate features: the requested descriptors' features, or every loaded repository's features with `verifyTransitive`.
  - It keeps the candidates whose `name/version` id matches one of the `features` globs. The globs are rewritten into one regular-expression alternation.
  - It adds a `feature.framework.<fmk>` property for every framework.
  - It resolves each feature in turn under the `fail` policy (`first`, `end`, or anything else).

  A failed resolution is reported by a `MojoExecutionException`. Its message lists the repository URIs and the downloaded resources, sorted, in `toString(Collection)` form. The resolver runs against a synthetic *system bundle*. Its OSGi headers come from the Karaf distribution's `etc/config.properties`.
- **The `fabric:profile-display` command** (`ProfileDisplayAction`). The model covers its deterministic parts:
  - which profiles are displayed;
  - how container ids are joined;
  - how agent configuration entries are sorted into the agent, system and config property lists;
  - which PIDs remain for "Configuration details" once the agent PID is dropped;
  - which resources are listed as "Other resources".
- **`JavaContainerConfig`**: a class with four optional settings. Its `updateEnvironmentVariables` writes them into the caller's environment-variable map. The `FABRIC8_JVM_ARGS` write is guarded by the *Java agent* setting, not by the JVM arguments.

The modules are:

- `Wrappers`: Option and Result.
- `Exceptions`: the exceptions thrown, caught and wrapped.
- `JavaStrings`: the `String` operations the code relies on, including `compareTo` as an order.
- `FeaturePattern`: glob to pattern text, the compiled pattern, and its meaning.
- `Diagnostics`: `TreeSet` order and `toString(Collection)`.
- `SystemBundle`: `getSystemBundleResource`.
- `VerifyFeatureResolution`: the goal itself.
- `ProfileDisplay`.
- `JavaContainer`: the `EnvironmentVariables` and `JavaContainerConfig` classes.

Library calls (`getResolveOptionalImports`, downloader, resolver, properties loader, `substitute()`, resource builder) are fields of an `Environment` or `Loader` value. Each is a function that returns its result or the exception it throws. Java `null` strings are `Option<string>`. A `NullPointerException` the code would raise is the `NullPointer` exception. Hash-based collections are given as sequences in their iteration order.

## Model

| member | source | states |
|---|---|---|
| VerifyFeatureResolution.SelectCandidates | fabric8-maven-plugin/src/main/java/io/fabric8/maven/VerifyFeatureResolutionMojo.java:134-143 | The loaded repositories have distinct URIs, as the keys of a map do. With `verifyTransitive` the candidates are every loaded repository's features, repository after repository. Otherwise they are the requested descriptors' features, descriptor after descriptor, and a descriptor that was not loaded throws `NullPointerException`. |
| VerifyFeatureResolution.LookupFinds | fabric8-maven-plugin/src/main/java/io/fabric8/maven/VerifyFeatureResolutionMojo.java:141 | `allFeatures.get(uri)` yields a loaded repository's features exactly when some repository was loaded from that URI. |
| VerifyFeatureResolution.AllFeaturesMembers | fabric8-maven-plugin/src/main/java/io/fabric8/maven/VerifyFeatureResolutionMojo.java:135-138 | A feature is a transitive candidate iff some loaded repository declares it. |
| VerifyFeatureResolution.RequestedFeaturesDefined | fabric8-maven-plugin/src/main/java/io/fabric8/maven/VerifyFeatureResolutionMojo.java:140-142 | Non-transitive selection succeeds iff every requested descriptor was loaded. |
| VerifyFeatureResolution.RequestedFeaturesMembers | fabric8-maven-plugin/src/main/java/io/fabric8/maven/VerifyFeatureResolutionMojo.java:140-142 | A feature is a requested candidate iff a requested descriptor's repository declares it. |
| VerifyFeatureResolution.RequestedWithinAll | fabric8-maven-plugin/src/main/java/io/fabric8/maven/VerifyFeatureResolutionMojo.java:134-143 | Every requested candidate is also a transitive candidate. |
| FeaturePattern.BuildPattern | fabric8-maven-plugin/src/main/java/io/fabric8/maven/VerifyFeatureResolutionMojo.java:145-155 | The StringBuilder loop produces the alternatives joined by `|`. Each alternative is the token with `.` escaped and `*` as `.*`, plus `/.*` when the token has no `/`. |
| FeaturePattern.ParseEscaped | fabric8-maven-plugin/src/main/java/io/fabric8/maven/VerifyFeatureResolutionMojo.java:150 | The escaped text of a token parses back, as a regular expression, to the token's glob: a literal dot for `.` and any run of characters for `*`. |
| FeaturePattern.AlternativeParses | fabric8-maven-plugin/src/main/java/io/fabric8/maven/VerifyFeatureResolutionMojo.java:150-154 | Each token's alternative parses to the atoms of its effective glob, which is the token with `/*` added when it has no `/`. |
| FeaturePattern.AlternativeHasNoBar | fabric8-maven-plugin/src/main/java/io/fabric8/maven/VerifyFeatureResolutionMojo.java:147-151 | No alternative holds a `|`, so the `|` separators delimit exactly the tokens. |
| FeaturePattern.PatternMeansGlobs | fabric8-maven-plugin/src/main/java/io/fabric8/maven/VerifyFeatureResolutionMojo.java:144-160 | For a non-empty list of tokens without other regex metacharacters, the pattern compiles. It fully matches an id iff some token's effective glob matches the id. |
| FeaturePattern.VersionlessTokenSelectsEveryVersion | fabric8-maven-plugin/src/main/java/io/fabric8/maven/VerifyFeatureResolutionMojo.java:152-154 | A token without `/` that matches a feature name selects that name with every single-line version. |
| FeaturePattern.StarFreeGlobMatchesItself | fabric8-maven-plugin/src/main/java/io/fabric8/maven/VerifyFeatureResolutionMojo.java:150 | Because `.` is escaped, a glob without `*` matches only itself. |
| FeaturePattern.GlobConcat | fabric8-maven-plugin/src/main/java/io/fabric8/maven/VerifyFeatureResolutionMojo.java:152-154 | If two globs match two strings, their concatenation matches the concatenated strings. This is what makes the appended `/.*` work. |
| VerifyFeatureResolution.PatternDecides | fabric8-maven-plugin/src/main/java/io/fabric8/maven/VerifyFeatureResolutionMojo.java:156-160 | The compiled pattern accepts an id exactly when some token selects it. |
| VerifyFeatureResolution.FilterFeatures | fabric8-maven-plugin/src/main/java/io/fabric8/maven/VerifyFeatureResolutionMojo.java:156-163 | The iterator loop that removes rejected candidates leaves exactly the selected candidates, in their original order. |
| VerifyFeatureResolution.SelectedFeaturesMembers | fabric8-maven-plugin/src/main/java/io/fabric8/maven/VerifyFeatureResolutionMojo.java:157-163 | A candidate survives the filter iff some token selects its `name/version` id. |
| VerifyFeatureResolution.SelectedFeaturesAppend | fabric8-maven-plugin/src/main/java/io/fabric8/maven/VerifyFeatureResolutionMojo.java:157-163 | Filtering works piecewise over concatenation, so it keeps the relative order. |
| VerifyFeatureResolution.InjectFrameworks | fabric8-maven-plugin/src/main/java/io/fabric8/maven/VerifyFeatureResolutionMojo.java:166-168 | The loop yields the properties with `feature.framework.<fmk>` put for each framework in turn. |
| VerifyFeatureResolution.WithFrameworksSpec | fabric8-maven-plugin/src/main/java/io/fabric8/maven/VerifyFeatureResolutionMojo.java:166-168 | Each framework `fmk` maps `feature.framework.<fmk>` to `fmk`. No other key appears and no other property changes. |
| VerifyFeatureResolution.VerifyResolution | fabric8-maven-plugin/src/main/java/io/fabric8/maven/VerifyFeatureResolutionMojo.java:188-232 | `feature.totest` is overwritten with the feature id. What is thrown follows, in order, `getResolveOptionalImports`, the download, the system bundle and the resolve step. |
| VerifyFeatureResolution.OutcomeNamesFeature | fabric8-maven-plugin/src/main/java/io/fabric8/maven/VerifyFeatureResolutionMojo.java:216-231 | Every failure of `verifyResolution` is a MojoExecutionException. When every step before resolution succeeds, the message starts "Feature resolution failed for <feature>". When an earlier step throws something else, it starts "Error verifying feature <feature>". An earlier step's MojoExecutionException is thrown unchanged. |
| VerifyFeatureResolution.ResolutionFailureLists | fabric8-maven-plugin/src/main/java/io/fabric8/maven/VerifyFeatureResolutionMojo.java:220-223 | The resolution-failure message lists the repository URIs and the downloaded resource keys. Each list is strictly sorted and holds exactly its set, and each listing reads back as that list. |
| VerifyFeatureResolution.Failures | fabric8-maven-plugin/src/main/java/io/fabric8/maven/VerifyFeatureResolutionMojo.java:169-182 | The failure list is empty iff no feature failed. |
| VerifyFeatureResolution.FirstFailure | fabric8-maven-plugin/src/main/java/io/fabric8/maven/VerifyFeatureResolutionMojo.java:169-180 | It finds the position of a failing feature with no failure before it, or none when no feature failed. |
| VerifyFeatureResolution.FailuresCount | fabric8-maven-plugin/src/main/java/io/fabric8/maven/VerifyFeatureResolutionMojo.java:177-184 | The aggregate carries one exception per failing feature. |
| VerifyFeatureResolution.FailuresMembers | fabric8-maven-plugin/src/main/java/io/fabric8/maven/VerifyFeatureResolutionMojo.java:177-184 | An exception is in the aggregate iff some feature's verification threw it. |
| VerifyFeatureResolution.VerifyAll | fabric8-maven-plugin/src/main/java/io/fabric8/maven/VerifyFeatureResolutionMojo.java:169-185 | See the three policies below. The shared properties end with `feature.totest` set to the last verified id. |
| VerifyFeatureResolution.Execute | fabric8-maven-plugin/src/main/java/io/fabric8/maven/VerifyFeatureResolutionMojo.java:134-185 | For repositories with distinct URIs (they are the keys of a map): a failed candidate selection is thrown before any verification, and so is a null `framework` set (`NullPointerException`). Otherwise the filtered candidates are verified under the `fail` policy, with the framework properties added to the metadata. |
| Diagnostics.Insert | fabric8-maven-plugin/src/main/java/io/fabric8/maven/VerifyFeatureResolutionMojo.java:222-223 | Adding to a TreeSet keeps it strictly sorted by `compareTo` and adds exactly the new element. `compareTo` is modelled as Java defines it: lexicographic on UTF-16 code units, a proper prefix first. |
| Diagnostics.SortedUnique | fabric8-maven-plugin/src/main/java/io/fabric8/maven/VerifyFeatureResolutionMojo.java:222-223 | A set has only one strictly sorted enumeration, so the TreeSet order is determined. |
| JavaStrings.PrecedesTotal | fabric8-maven-plugin/src/main/java/io/fabric8/maven/VerifyFeatureResolutionMojo.java:222-223 | `compareTo` orders any two different strings one way or the other. Distinct strings have distinct UTF-16 code units. |
| JavaStrings.SupplementaryBeforeLastBmp | fabric8-maven-plugin/src/main/java/io/fabric8/maven/VerifyFeatureResolutionMojo.java:222-223 | U+10000 sorts before U+FFFF, because its high surrogate is a smaller code unit, though the character itself is larger. |
| Diagnostics.SortedElements | fabric8-maven-plugin/src/main/java/io/fabric8/maven/VerifyFeatureResolutionMojo.java:222-223 | `new TreeSet<>(keys)` iterates the keys strictly sorted by `compareTo` (UTF-16 code units), each exactly once. |
| Diagnostics.CollectionToString | fabric8-maven-plugin/src/main/java/io/fabric8/maven/VerifyFeatureResolutionMojo.java:234-242 | The text is `{` and a newline, then a tab, the element and a newline for each element in order, then `}`. |
| Diagnostics.ListingRoundTrip | fabric8-maven-plugin/src/main/java/io/fabric8/maven/VerifyFeatureResolutionMojo.java:234-242 | A listing of elements without line breaks reads back as exactly those elements, in order. |
| SystemBundle.DistributionDirectory | fabric8-maven-plugin/src/main/java/io/fabric8/maven/VerifyFeatureResolutionMojo.java:246-249 | The directory is `distDir` when given. Otherwise it is `artifactId-baseVersion`. |
| SystemBundle.WithSpecificationVersion | fabric8-maven-plugin/src/main/java/io/fabric8/maven/VerifyFeatureResolutionMojo.java:253-257 | `java.specification.version` becomes `javase` when non-null, else the running JVM's version. No other key changes. |
| SystemBundle.BuildHeaders | fabric8-maven-plugin/src/main/java/io/fabric8/maven/VerifyFeatureResolutionMojo.java:259-271 | Exactly five headers: manifest version `2`, symbolic name `system-bundle`, version `0.0.0`, Export-Package, and Provide-Capability from `system.capabilities`. Export-Package is the base packages, with `,` and the extra packages appended only when the extra key is present. |
| SystemBundle.ExportedPackagesMerged | fabric8-maven-plugin/src/main/java/io/fabric8/maven/VerifyFeatureResolutionMojo.java:264-268 | Split on commas, Export-Package is the base package list followed by the extra package list. |
| SystemBundle.SystemBundleResource | fabric8-maven-plugin/src/main/java/io/fabric8/maven/VerifyFeatureResolutionMojo.java:244-276 | A distribution missing from the artifact map throws `NullPointerException`. Failures of the properties loader, of `substitute()` and of the resource builder propagate. On success the headers name the `system-bundle`. |
| ProfileDisplay.ProfilesToDisplay | fabric/fabric-commands/src/main/java/io/fabric8/commands/ProfileDisplayAction.java:69-73 | The loop displays the version's profiles whose id equals `profileId`, in order. |
| ProfileDisplay.MatchingMeans | fabric/fabric-commands/src/main/java/io/fabric8/commands/ProfileDisplayAction.java:69-73 | A profile is displayed iff it belongs to the version and has the requested id. Each is displayed as often as it occurs. |
| ProfileDisplay.ContainersToString | fabric/fabric-commands/src/main/java/io/fabric8/commands/ProfileDisplayAction.java:77-84 | The text is the trimmed buffer of every id followed by a space. |
| ProfileDisplay.ContainersText | fabric/fabric-commands/src/main/java/io/fabric8/commands/ProfileDisplayAction.java:77-84 | An empty array gives `""`. Ids without surrounding blanks come out joined by single spaces, with none leading or trailing. |
| ProfileDisplay.ContainersRoundTrip | fabric/fabric-commands/src/main/java/io/fabric8/commands/ProfileDisplayAction.java:77-84 | Ids without blanks can be read back by splitting the text on spaces. |
| ProfileDisplay.ClassifyAgentConfig | fabric/fabric-commands/src/main/java/io/fabric8/commands/ProfileDisplayAction.java:122-140 | The loop builds the agent, system and config lists. Each holds the lines of its category's entries, in iteration order. |
| ProfileDisplay.ClassifyMeans | fabric/fabric-commands/src/main/java/io/fabric8/commands/ProfileDisplayAction.java:129-139 | `system.` keys are system properties. Other `config.` keys are config properties. Of the rest, keys with one of the six hidden prefixes (`repository` without a dot) are listed nowhere; all others are agent properties. |
| ProfileDisplay.LinesMeans | fabric/fabric-commands/src/main/java/io/fabric8/commands/ProfileDisplayAction.java:122-140 | A line is in a category's list iff some entry of that category produces it. |
| ProfileDisplay.CategoriesPartition | fabric/fabric-commands/src/main/java/io/fabric8/commands/ProfileDisplayAction.java:122-140 | Every entry lands in exactly one category, so it is listed at most once. |
| ProfileDisplay.StrippedKeys | fabric/fabric-commands/src/main/java/io/fabric8/commands/ProfileDisplayAction.java:129-138 | System and config lines show the key without its prefix, and agent lines show the whole key. Every line starts with two spaces, the shown key and ` = `. |
| ProfileDisplay.Reformat | fabric/fabric-commands/src/main/java/io/fabric8/commands/ProfileDisplayAction.java:125-127 | A comma-free value is unchanged. A value with a comma gets longer and starts with a tab. |
| ProfileDisplay.ReformatRoundTrip | fabric/fabric-commands/src/main/java/io/fabric8/commands/ProfileDisplayAction.java:125-127 | The reformatting loses nothing: undoing the tab and the `,\n\t\t` line breaks gives back the value. |
| JavaStrings.ReplaceCharMembers | fabric/fabric-commands/src/main/java/io/fabric8/commands/ProfileDisplayAction.java:126 | Replacing every comma keeps every other character of the value and adds only characters of the replacement. |
| ProfileDisplay.ConfigurationDetails | fabric/fabric-commands/src/main/java/io/fabric8/commands/ProfileDisplayAction.java:115-177 | The container settings are shown iff the agent PID is configured. The working copy then lacks the agent PID and keeps every other PID with its properties. The profile's own map is a value and is not changed. |
| ProfileDisplay.ListOtherResources | fabric/fabric-commands/src/main/java/io/fabric8/commands/ProfileDisplayAction.java:193-203 | The loop lists the resource names that do not end in `.properties`, in iteration order. |
| ProfileDisplay.OtherResourcesMeans | fabric/fabric-commands/src/main/java/io/fabric8/commands/ProfileDisplayAction.java:195 | A resource is listed iff its name does not end in `.properties`. |
| JavaContainer.JavaContainerConfig.constructor | fabric/fabric-process-container/src/main/java/io/fabric8/container/process/JavaContainerConfig.java:34-41 | A new configuration has all four settings null. |
| JavaContainer.JavaContainerConfig.SetMainClass | fabric/fabric-process-container/src/main/java/io/fabric8/container/process/JavaContainerConfig.java:58-64 | `getMainClass` then returns the value set, and the other settings keep their values. |
| JavaContainer.JavaContainerConfig.SetArguments | fabric/fabric-process-container/src/main/java/io/fabric8/container/process/JavaContainerConfig.java:66-72 | `getArguments` then returns the value set, and the other settings keep their values. |
| JavaContainer.JavaContainerConfig.SetJavaAgent | fabric/fabric-process-container/src/main/java/io/fabric8/container/process/JavaContainerConfig.java:74-80 | `getJavaAgent` then returns the value set, and the other settings keep their values. |
| JavaContainer.JavaContainerConfig.SetJvmArguments | fabric/fabric-process-container/src/main/java/io/fabric8/container/process/JavaContainerConfig.java:82-88 | `getJvmArguments` then returns the value set, and the other settings keep their values. |
| JavaContainer.JavaContainerConfig.UpdateEnvironmentVariables | fabric/fabric-process-container/src/main/java/io/fabric8/container/process/JavaContainerConfig.java:43-56 | The caller's map becomes its old contents after the four guarded puts. The configuration itself does not change. |
| JavaContainer.UpdatedSpec | fabric/fabric-process-container/src/main/java/io/fabric8/container/process/JavaContainerConfig.java:43-56 | See the JavaContainerConfig notes below. |
| JavaContainer.JvmArgumentsNeedAgent | fabric/fabric-process-container/src/main/java/io/fabric8/container/process/JavaContainerConfig.java:53-55 | Starting from a map without it, `FABRIC8_JVM_ARGS` ends up present iff the Java agent is not blank, whatever the JVM arguments are. |
| JavaContainer.UpdatedIdempotent | fabric/fabric-process-container/src/main/java/io/fabric8/container/process/JavaContainerConfig.java:43-56 | Updating the map twice gives the same map as updating it once. |
| JavaStrings.NotBlankIffVisibleChar | fabric/fabric-process-container/src/main/java/io/fabric8/container/process/JavaContainerConfig.java:44 | A string is "not blank" exactly when one of its characters lies above U+0020. |

`VerifyAll` states one outcome per `fail` value:

- `first`: the features up to and including the first failing one are verified, and that failure is rethrown.
- `end`: every feature is verified once, in order. An aggregate exception carrying all failures in order is thrown iff there was a failure.
- any other value: every feature is verified and nothing is thrown.

`UpdatedSpec` states what `updateEnvironmentVariables` writes:

- `FABRIC8_JAVA_MAIN`, `FABRIC8_MAIN_ARGS` and `FABRIC8_JAVA_AGENT` are set to their own setting iff that setting is not blank.
- `FABRIC8_JVM_ARGS` is set to the JVM arguments, possibly null, iff the Java agent is not blank.
- Every other entry is unchanged.

## Left out

- Registering `CustomBundleURLStreamHandlerFactory` and wrap-bundle creation: URL and stream I/O through a library outside the model.
- `System.setProperty("karaf.home" / "karaf.data")` and the eight-thread executor: global JVM state and concurrency.
- Reading the additional-metadata file, `loadRepositories` and the `DownloadManager`: file and network I/O. The loaded repositories and the metadata properties are inputs to `Execute`.
- The `resources.` repositories: the `HttpMetadataProvider` loop adds resource repositories to the builder, and it is not modelled (network I/O).
- `DeploymentBuilder.download` and `resolve`, `getPrefixedProperties`, `getMetadata`, `getResolveOptionalImports`, `PropertiesLoader.loadPropertiesFile`, `configProps.substitute()` and `ResourceBuilder.build` are library calls. They are function-valued parameters that return a value or the exception they throw. The downloader sees the whole property table rather than its prefixed groups.
- Full `java.util.regex` semantics: only the syntax the rewriting produces (literals, `\.`, `.*`, `|`) is parsed. `Execute` and `FilterFeatures` require tokens free of other regex metacharacters. A token with `+`, `?`, `(`, `[` and the like would be read by Java as regex syntax.
- Execute: a null `features` set and an empty one are both the empty sequence, and both skip the filter as in the source.
- Logging (`getLog().info` and `warn`) and all console output of the profile display: the printed headers, attributes, libraries, repositories, features, bundles, fabs, overrides, the per-PID details and `printConfigList`.
- `FabricValidations.validateProfileName`, the version lookup through `ProfileService`/`FabricService` and the overlay profile: services outside the model. `ProfilesToDisplay` takes the chosen version's profiles as input.
- `displayResources`: printing a resource's bytes decoded as UTF-8 is output only.
- ProfileDisplay.ConfigurationDetails: takes the agent PID as a parameter, because `Constants.AGENT_PID` is not part of this model.
- ProfileDisplay.ClassifyAgentConfig: agent configuration values are non-null strings. A null value would throw at `value.contains(",")`, and this is not modelled.
- JavaContainer: the four environment-variable names are assumed to be `FABRIC8_JAVA_MAIN`, `FABRIC8_MAIN_ARGS`, `FABRIC8_JAVA_AGENT` and `FABRIC8_JVM_ARGS`. `JavaContainerEnvironmentVariables` is not part of this model; only their distinctness matters to the proofs.
- JavaStrings.IsNotBlank: `Strings.isNotBlank` is not part of this model. It is read as "non-null and not empty after `trim()`", i.e. some character above U+0020.
- The getters of `JavaContainerConfig` are functions that return their field. Their behaviour is stated through the setters' postconditions.
- VerifyResolution: one `DownloadManager` is shared by every verification. Its cache is assumed not to affect outcomes, so each feature's outcome depends only on the properties with `feature.totest` set.
- Maps in the model have no iteration order of their own. Where the source iterates a `HashMap`, `Hashtable` or `Set`, the model takes the iteration order as an input sequence.
