/** The configuration of a Java child or docker container (JavaContainerConfig): four
    optional settings, and the environment variables they contribute to the
    container's launch environment. */
module JavaContainer {
  import opened Wrappers
  import opened JavaStrings

  /** The names of the environment variables (JavaContainerEnvironmentVariables). */
  const JavaMain := "FABRIC8_JAVA_MAIN"
  const MainArgs := "FABRIC8_MAIN_ARGS"
  const JavaAgent := "FABRIC8_JAVA_AGENT"
  const JvmArgs := "FABRIC8_JVM_ARGS"

  lemma NamesDistinct()
    ensures JavaMain != MainArgs && JavaMain != JavaAgent && JavaMain != JvmArgs
    ensures MainArgs != JavaAgent && MainArgs != JvmArgs && JavaAgent != JvmArgs
  {
    assert JavaMain[8] != MainArgs[8];
    assert |JavaMain| != |JavaAgent| && |JavaMain| != |JvmArgs|;
    assert |MainArgs| != |JavaAgent| && |MainArgs| != |JvmArgs| && |JavaAgent| != |JvmArgs|;
  }

  /** `map.put(key, value)` when `write` holds. */
  function PutIf(env: Variables, write: bool, key: string, value: Option<string>): (r: Variables)
    ensures write ==> key in r && r[key] == value
    ensures !write ==> r == env
    ensures forall k :: k != key ==> (k in r <==> k in env) && (k in env ==> r[k] == env[k])
  {
    if write then env[key := value] else env
  }

  /** A `Map<String, String>` whose values may be null. */
  type Variables = map<string, Option<string>>

  /** The variables after `updateEnvironmentVariables` on a configuration with these
      four settings. */
  function Updated(env: Variables, mainClass: Option<string>, arguments: Option<string>,
                   javaAgent: Option<string>, jvmArguments: Option<string>): Variables
  {
    var withMain := PutIf(env, IsNotBlank(mainClass), JavaMain, mainClass);
    var withArgs := PutIf(withMain, IsNotBlank(arguments), MainArgs, arguments);
    var withAgent := PutIf(withArgs, IsNotBlank(javaAgent), JavaAgent, javaAgent);
    PutIf(withAgent, IsNotBlank(javaAgent), JvmArgs, jvmArguments)
  }

  /** Each of the first three variables is set to its own setting exactly when that
      setting is not blank; `FABRIC8_JVM_ARGS` is set to `jvmArguments`, null or blank
      as it may be, exactly when `javaAgent` is not blank; nothing else changes. */
  lemma UpdatedSpec(env: Variables, mainClass: Option<string>, arguments: Option<string>,
                    javaAgent: Option<string>, jvmArguments: Option<string>)
    ensures var u := Updated(env, mainClass, arguments, javaAgent, jvmArguments);
      && (IsNotBlank(mainClass) ==> JavaMain in u && u[JavaMain] == mainClass)
      && (!IsNotBlank(mainClass) ==> (JavaMain in u <==> JavaMain in env) && (JavaMain in env ==> u[JavaMain] == env[JavaMain]))
      && (IsNotBlank(arguments) ==> MainArgs in u && u[MainArgs] == arguments)
      && (!IsNotBlank(arguments) ==> (MainArgs in u <==> MainArgs in env) && (MainArgs in env ==> u[MainArgs] == env[MainArgs]))
      && (IsNotBlank(javaAgent) ==> JavaAgent in u && u[JavaAgent] == javaAgent)
      && (IsNotBlank(javaAgent) ==> JvmArgs in u && u[JvmArgs] == jvmArguments)
      && (!IsNotBlank(javaAgent) ==> (JavaAgent in u <==> JavaAgent in env) && (JavaAgent in env ==> u[JavaAgent] == env[JavaAgent]))
      && (!IsNotBlank(javaAgent) ==> (JvmArgs in u <==> JvmArgs in env) && (JvmArgs in env ==> u[JvmArgs] == env[JvmArgs]))
      && (forall k :: k != JavaMain && k != MainArgs && k != JavaAgent && k != JvmArgs ==>
            (k in u <==> k in env) && (k in env ==> u[k] == env[k]))
  {
    NamesDistinct();
  }

  /** The JVM arguments travel only with a Java agent: with a blank agent they are
      never written, whatever they are. */
  lemma JvmArgumentsNeedAgent(env: Variables, mainClass: Option<string>, arguments: Option<string>,
                              javaAgent: Option<string>, jvmArguments: Option<string>)
    requires JvmArgs !in env
    ensures JvmArgs in Updated(env, mainClass, arguments, javaAgent, jvmArguments) <==> IsNotBlank(javaAgent)
  {
    UpdatedSpec(env, mainClass, arguments, javaAgent, jvmArguments);
  }

  /** Updating twice gives what updating once gives. */
  lemma UpdatedIdempotent(env: Variables, mainClass: Option<string>, arguments: Option<string>,
                          javaAgent: Option<string>, jvmArguments: Option<string>)
    ensures var once := Updated(env, mainClass, arguments, javaAgent, jvmArguments);
      Updated(once, mainClass, arguments, javaAgent, jvmArguments) == once
  {
    var once := Updated(env, mainClass, arguments, javaAgent, jvmArguments);
    UpdatedSpec(env, mainClass, arguments, javaAgent, jvmArguments);
    PutIfPresent(once, IsNotBlank(mainClass), JavaMain, mainClass);
    PutIfPresent(once, IsNotBlank(arguments), MainArgs, arguments);
    PutIfPresent(once, IsNotBlank(javaAgent), JavaAgent, javaAgent);
    PutIfPresent(once, IsNotBlank(javaAgent), JvmArgs, jvmArguments);
  }

  /** Writing what is already there changes nothing. */
  lemma PutIfPresent(env: Variables, write: bool, key: string, value: Option<string>)
    requires write ==> key in env && env[key] == value
    ensures PutIf(env, write, key, value) == env
  {
    if write {
      assert env[key := value] == env;
    }
  }

  /** The caller's map, updated in place. */
  class EnvironmentVariables {
    var entries: Variables

    constructor(entries: Variables)
      ensures this.entries == entries
    {
      this.entries := entries;
    }

    /** `Map.put` */
    method Put(key: string, value: Option<string>)
      modifies this
      ensures entries == old(entries)[key := value]
    {
      entries := entries[key := value];
    }
  }

  class JavaContainerConfig {
    var mainClass: Option<string>
    var arguments: Option<string>
    var javaAgent: Option<string>
    var jvmArguments: Option<string>

    /** A fresh configuration: every setting null. */
    constructor()
      ensures mainClass.None? && arguments.None? && javaAgent.None? && jvmArguments.None?
    {
      mainClass, arguments, javaAgent, jvmArguments := None, None, None, None;
    }

    function GetMainClass(): Option<string>
      reads this
    {
      mainClass
    }

    method SetMainClass(mainClass: Option<string>)
      modifies this
      ensures GetMainClass() == mainClass
      ensures arguments == old(arguments) && javaAgent == old(javaAgent) && jvmArguments == old(jvmArguments)
    {
      this.mainClass := mainClass;
    }

    function GetArguments(): Option<string>
      reads this
    {
      arguments
    }

    method SetArguments(arguments: Option<string>)
      modifies this
      ensures GetArguments() == arguments
      ensures mainClass == old(mainClass) && javaAgent == old(javaAgent) && jvmArguments == old(jvmArguments)
    {
      this.arguments := arguments;
    }

    function GetJavaAgent(): Option<string>
      reads this
    {
      javaAgent
    }

    method SetJavaAgent(javaAgent: Option<string>)
      modifies this
      ensures GetJavaAgent() == javaAgent
      ensures mainClass == old(mainClass) && arguments == old(arguments) && jvmArguments == old(jvmArguments)
    {
      this.javaAgent := javaAgent;
    }

    function GetJvmArguments(): Option<string>
      reads this
    {
      jvmArguments
    }

    method SetJvmArguments(jvmArguments: Option<string>)
      modifies this
      ensures GetJvmArguments() == jvmArguments
      ensures mainClass == old(mainClass) && arguments == old(arguments) && javaAgent == old(javaAgent)
    {
      this.jvmArguments := jvmArguments;
    }

    /** `updateEnvironmentVariables`: the four guarded puts, in order. The
      configuration itself does not change. */
    method UpdateEnvironmentVariables(environmentVariables: EnvironmentVariables)
      modifies environmentVariables
      ensures environmentVariables.entries
           == Updated(old(environmentVariables.entries), mainClass, arguments, javaAgent, jvmArguments)
      ensures unchanged(this)
    {
      if IsNotBlank(mainClass) {
        environmentVariables.Put(JavaMain, mainClass);
      }
      if IsNotBlank(arguments) {
        environmentVariables.Put(MainArgs, arguments);
      }
      if IsNotBlank(javaAgent) {
        environmentVariables.Put(JavaAgent, javaAgent);
      }
      if IsNotBlank(javaAgent) {
        environmentVariables.Put(JvmArgs, jvmArguments);
      }
    }
  }
}
