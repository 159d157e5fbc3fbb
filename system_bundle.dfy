/** The synthetic "system bundle" resource the mojo resolves every feature against:
    OSGi manifest headers derived from the `etc/config.properties` file of a Karaf
    distribution (`getSystemBundleResource`). */
module SystemBundle {
  import opened Wrappers
  import opened JavaStrings
  import opened Exceptions

  /** OSGi header names (org.osgi.framework.Constants). */
  const BundleManifestVersion := "Bundle-ManifestVersion"
  const BundleSymbolicName := "Bundle-SymbolicName"
  const BundleVersion := "Bundle-Version"
  const ExportPackage := "Export-Package"
  const ProvideCapability := "Provide-Capability"

  /** Keys of the distribution's configuration file. */
  const SystemPackages := "org.osgi.framework.system.packages"
  const SystemPackagesExtra := "org.osgi.framework.system.packages.extra"
  const SystemCapabilities := "org.osgi.framework.system.capabilities"
  const JavaSpecificationVersion := "java.specification.version"

  /** A configuration file after loading: key to value. */
  type Config = map<string, string>

  /** Manifest headers; a value may be null. */
  type Headers = map<string, Option<string>>

  /** The distribution artifact of the plugin's dependencies. */
  datatype Artifact = Artifact(artifactId: string, baseVersion: string, file: string)

  /** The library calls `getSystemBundleResource` makes. */
  datatype Loader = Loader(
    /** `PropertiesLoader.loadPropertiesFile(url, true)` */
    load: string -> Result<Config, Exception>,
    /** `configProps.substitute()`: the substituted configuration, or what it throws */
    substitute: Config -> Result<Config, Exception>,
    /** `ResourceBuilder.build("system-bundle", headers)`: None when it returns */
    build: Headers -> Option<Exception>)

  /** `config.getProperty(key)` */
  function Property(config: Config, key: string): Option<string> {
    if key in config then Some(config[key]) else None
  }

  /** The directory of the distribution inside its archive. */
  function DistributionDirectory(distDir: Option<string>, distro: Artifact): (dir: string)
    ensures distDir.Some? ==> dir == distDir.value
    ensures distDir.None? ==> dir == distro.artifactId + "-" + distro.baseVersion
  {
    match distDir
    case Some(d) => d
    case None => distro.artifactId + "-" + distro.baseVersion
  }

  /** The URL of the configuration file inside the distribution archive. */
  function ConfigUrl(distro: Artifact, dir: string): string {
    "jar:file:" + distro.file + "!/" + dir + "/etc/config.properties"
  }

  /** The configuration with its Java specification version set: the `javase`
      parameter when given, the running JVM's otherwise. */
  function WithSpecificationVersion(config: Config, javase: Option<string>, jvmVersion: string): (r: Config)
    ensures r.Keys == config.Keys + {JavaSpecificationVersion}
    ensures r[JavaSpecificationVersion] == (if javase.Some? then javase.value else jvmVersion)
    ensures forall k :: k in config && k != JavaSpecificationVersion ==> r[k] == config[k]
  {
    match javase
    case None => config[JavaSpecificationVersion := jvmVersion]
    case Some(v) => config[JavaSpecificationVersion := v]
  }

  /** The headers of the system bundle for a (substituted) configuration. */
  function HeadersFor(config: Config): Headers {
    var packages := Property(config, SystemPackages);
    map[BundleManifestVersion := Some("2"),
        BundleSymbolicName := Some("system-bundle"),
        BundleVersion := Some("0.0.0"),
        ExportPackage := (if SystemPackagesExtra in config
                          then Some(Text(packages) + "," + config[SystemPackagesExtra])
                          else packages),
        ProvideCapability := Property(config, SystemCapabilities)]
  }

  /** The `headers.put` sequence of `getSystemBundleResource`. */
  method BuildHeaders(config: Config) returns (headers: Headers)
    ensures headers == HeadersFor(config)
    ensures headers.Keys == {BundleManifestVersion, BundleSymbolicName, BundleVersion, ExportPackage, ProvideCapability}
    ensures headers[BundleManifestVersion] == Some("2")
    ensures headers[BundleSymbolicName] == Some("system-bundle")
    ensures headers[BundleVersion] == Some("0.0.0")
    ensures SystemPackagesExtra !in config ==> headers[ExportPackage] == Property(config, SystemPackages)
    ensures SystemPackagesExtra in config ==>
      headers[ExportPackage] == Some(Text(Property(config, SystemPackages)) + "," + config[SystemPackagesExtra])
    ensures headers[ProvideCapability] == Property(config, SystemCapabilities)
  {
    headers := map[];
    headers := headers[BundleManifestVersion := Some("2")];
    headers := headers[BundleSymbolicName := Some("system-bundle")];
    headers := headers[BundleVersion := Some("0.0.0")];
    var exportPackages := Property(config, SystemPackages);
    if SystemPackagesExtra in config {
      exportPackages := Some(Text(exportPackages) + "," + config[SystemPackagesExtra]);
    }
    headers := headers[ExportPackage := exportPackages];
    var systemCaps := Property(config, SystemCapabilities);
    headers := headers[ProvideCapability := systemCaps];
  }

  /** Export-Package lists the base packages followed by the extra ones: split on
      commas, it is the base list's entries and then the extra list's. */
  lemma ExportedPackagesMerged(config: Config)
    requires SystemPackages in config && SystemPackagesExtra in config
    ensures HeadersFor(config)[ExportPackage].Some?
    ensures Split(HeadersFor(config)[ExportPackage].value, ',')
         == Split(config[SystemPackages], ',') + Split(config[SystemPackagesExtra], ',')
  {
    var base, extra := config[SystemPackages], config[SystemPackagesExtra];
    assert HeadersFor(config)[ExportPackage].value == base + [','] + extra;
    SplitAppend(base, extra, ',');
  }

  /** What `getSystemBundleResource` returns or throws. */
  function SystemBundleOutcome(loader: Loader, artifacts: map<string, Artifact>, distribution: string,
                               distDir: Option<string>, javase: Option<string>, jvmVersion: string)
    : Result<Headers, Exception>
  {
    if distribution !in artifacts then Failure(NullPointer)
    else
      var distro := artifacts[distribution];
      var url := ConfigUrl(distro, DistributionDirectory(distDir, distro));
      match loader.load(url)
      case Failure(e) => Failure(e)
      case Success(config) =>
        match loader.substitute(WithSpecificationVersion(config, javase, jvmVersion))
        case Failure(e) => Failure(e)
        case Success(substituted) =>
          var headers := HeadersFor(substituted);
          match loader.build(headers)
          case Some(e) => Failure(e)
          case None => Success(headers)
  }

  /** `getSystemBundleResource`: locate the distribution, load its configuration, set the
      specification version, substitute variables, build the headers. A distribution
      missing from the artifact map dereferences null. */
  method SystemBundleResource(loader: Loader, artifacts: map<string, Artifact>, distribution: string,
                              distDir: Option<string>, javase: Option<string>, jvmVersion: string)
    returns (r: Result<Headers, Exception>)
    ensures r == SystemBundleOutcome(loader, artifacts, distribution, distDir, javase, jvmVersion)
    ensures distribution !in artifacts ==> r == Failure(NullPointer)
    ensures r.Success? ==> r.value[BundleSymbolicName] == Some("system-bundle")
  {
    if distribution !in artifacts {
      return Failure(NullPointer);
    }
    var distro := artifacts[distribution];
    var dir := distDir;
    if dir.None? {
      dir := Some(distro.artifactId + "-" + distro.baseVersion);
    }
    var url := "jar:file:" + distro.file + "!/" + dir.value + "/etc/config.properties";
    var loaded := loader.load(url);
    if loaded.Failure? {
      return Failure(loaded.error);
    }
    var configProps := loaded.value;
    if javase.None? {
      configProps := configProps[JavaSpecificationVersion := jvmVersion];
    } else {
      configProps := configProps[JavaSpecificationVersion := javase.value];
    }
    var substituted := loader.substitute(configProps);
    if substituted.Failure? {
      return Failure(substituted.error);
    }
    var headers := BuildHeaders(substituted.value);
    var failure := loader.build(headers);
    if failure.Some? {
      return Failure(failure.value);
    }
    return Success(headers);
  }
}
