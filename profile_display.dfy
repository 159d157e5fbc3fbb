/** The deterministic parts of the `fabric:profile-display` command
    (ProfileDisplayAction): which profiles are shown, how the container ids are joined,
    how the agent configuration is sorted into the three property lists, which PIDs
    are listed under "Configuration details" and which resources under "Other
    resources". What is printed around these values is console output and is not
    modelled. Maps are given as sequences of entries in their iteration order. */
module ProfileDisplay {
  import opened Wrappers
  import opened JavaStrings

  // ---------------------------------------------------------------------------
  // doExecute: the profiles to display
  // ---------------------------------------------------------------------------

  /** A profile of the chosen version, as far as the command reads it. */
  datatype Profile = Profile(id: string, version: string)

  /** The profiles, in version order, whose id equals the requested one. */
  function Matching(profiles: seq<Profile>, profileId: string): seq<Profile> {
    if profiles == [] then []
    else
      var last := profiles[|profiles| - 1];
      var earlier := Matching(profiles[..|profiles| - 1], profileId);
      if profileId == last.id then earlier + [last] else earlier
  }

  /** The loop of `doExecute`: `displayProfile` for each profile whose id equals
      `profileId`, in turn. */
  method ProfilesToDisplay(profiles: seq<Profile>, profileId: string) returns (displayed: seq<Profile>)
    ensures displayed == Matching(profiles, profileId)
  {
    displayed := [];
    for i := 0 to |profiles|
      invariant displayed == Matching(profiles[..i], profileId)
    {
      assert profiles[..i + 1][..i] == profiles[..i];
      var profile := profiles[i];
      if profileId == profile.id {
        displayed := displayed + [profile];
      }
    }
    assert profiles[..|profiles|] == profiles;
  }

  /** Exactly the profiles with the requested id are displayed, each as often as it
      occurs. */
  lemma {:induction false} MatchingMeans(profiles: seq<Profile>, profileId: string, p: Profile)
    ensures p in Matching(profiles, profileId) <==> p in profiles && p.id == profileId
    ensures forall q :: q in Matching(profiles, profileId) ==> q.id == profileId
    ensures |Matching(profiles, profileId)| == |set i | 0 <= i < |profiles| && profiles[i].id == profileId|
  {
    if profiles != [] {
      var m := |profiles| - 1;
      var init := profiles[..m];
      MatchingMeans(init, profileId, p);
      assert profiles == init + [profiles[m]];
      var before := set i | 0 <= i < m && init[i].id == profileId;
      var all := set i | 0 <= i < |profiles| && profiles[i].id == profileId;
      if profiles[m].id == profileId {
        assert all == before + {m};
      } else {
        assert all == before;
      }
    }
  }

  // ---------------------------------------------------------------------------
  // toString(Container[])
  // ---------------------------------------------------------------------------

  /** Each id followed by one space: the buffer before `trim()`. */
  function SpaceTerminated(ids: seq<string>): string {
    if ids == [] then ""
    else SpaceTerminated(ids[..|ids| - 1]) + ids[|ids| - 1] + " "
  }

  /** `toString(Container[])`: append every id and a space, then trim. */
  method ContainersToString(ids: seq<string>) returns (r: string)
    ensures r == Trim(SpaceTerminated(ids))
  {
    var rc := "";
    for i := 0 to |ids|
      invariant rc == SpaceTerminated(ids[..i])
    {
      assert ids[..i + 1][..i] == ids[..i];
      rc := rc + ids[i];
      rc := rc + " ";
    }
    assert ids[..|ids|] == ids;
    r := Trim(rc);
  }

  /** An id that trimming would not shorten. */
  predicate Untrimmed(id: string) {
    id != [] && id[0] > ' ' && id[|id| - 1] > ' '
  }

  lemma {:induction false} SpaceTerminatedJoin(ids: seq<string>)
    requires ids != []
    ensures SpaceTerminated(ids) == Join(ids, ' ') + " "
  {
    var m := |ids| - 1;
    if m == 0 {
      assert SpaceTerminated(ids[..0]) == "";
    } else {
      SpaceTerminatedJoin(ids[..m]);
      JoinAppend(ids[..m], ids[m], ' ');
      assert ids[..m] + [ids[m]] == ids;
    }
  }

  lemma {:induction false} JoinEnds(ids: seq<string>)
    requires ids != []
    requires forall i :: 0 <= i < |ids| ==> Untrimmed(ids[i])
    ensures var j := Join(ids, ' '); j != [] && j[0] > ' ' && j[|j| - 1] > ' '
  {
    assert Untrimmed(ids[0]);
    if |ids| > 1 {
      JoinEnds(ids[1..]);
    }
  }

  /** An empty array gives the empty string; ids without surrounding blanks come
      out joined by single spaces, with none leading or trailing. */
  lemma ContainersText(ids: seq<string>)
    requires forall i :: 0 <= i < |ids| ==> Untrimmed(ids[i])
    ensures ids == [] ==> Trim(SpaceTerminated(ids)) == ""
    ensures Trim(SpaceTerminated(ids)) == Join(ids, ' ')
  {
    if ids != [] {
      SpaceTerminatedJoin(ids);
      JoinEnds(ids);
      var j := Join(ids, ' ');
      var s := j + " ";
      assert TrimLeading(s) == s;
      assert s[..|s| - 1] == j;
      assert TrimTrailing(s) == TrimTrailing(j);
      assert TrimTrailing(j) == j;
    }
  }

  /** The ids can be read back from the text when none holds a blank. */
  lemma ContainersRoundTrip(ids: seq<string>)
    requires ids != []
    requires forall i :: 0 <= i < |ids| ==> Untrimmed(ids[i]) && ' ' !in ids[i]
    ensures Split(Trim(SpaceTerminated(ids)), ' ') == ids
  {
    ContainersText(ids);
    SplitJoin(ids, ' ');
  }

  // ---------------------------------------------------------------------------
  // The agent configuration
  // ---------------------------------------------------------------------------

  /** Where an agent configuration entry is listed. */
  datatype Category = AgentProperties | SystemProperties | ConfigProperties | NotListed

  const SystemPrefix := "system."
  const ConfigPrefix := "config."

  /** The prefixes of the keys the agent list leaves to the other sections (note
      `repository` without a dot). */
  const HiddenPrefixes := ["feature.", "repository", "bundle.", "fab.", "override.", "attribute."]

  predicate HasHiddenPrefix(key: string) {
    exists i :: 0 <= i < |HiddenPrefixes| && StartsWith(key, HiddenPrefixes[i])
  }

  /** The branch of the classification loop an entry takes. */
  function Classify(key: string): Category {
    if StartsWith(key, SystemPrefix) then SystemProperties
    else if StartsWith(key, ConfigPrefix) then ConfigProperties
    else if !StartsWith(key, "feature.") && !StartsWith(key, "repository")
         && !StartsWith(key, "bundle.") && !StartsWith(key, "fab.")
         && !StartsWith(key, "override.") && !StartsWith(key, "attribute.") then AgentProperties
    else NotListed
  }

  /** A system or config key loses its prefix; an agent key is shown whole. */
  function ShownKey(key: string): string {
    if StartsWith(key, SystemPrefix) then key[|SystemPrefix|..]
    else if StartsWith(key, ConfigPrefix) then key[|ConfigPrefix|..]
    else key
  }

  /** A value holding a comma is shown tab-indented, one item per line. */
  function Reformat(value: string): (shown: string)
    ensures ',' !in value ==> shown == value
    ensures ',' in value ==> |shown| > |value| && shown[0] == '\t'
  {
    ReplaceCharBounds(value, ',', ",\n\t\t");
    if ',' in value then "\t" + ReplaceChar(value, ',', ",\n\t\t") else value
  }

  /** The list entry of a key and its value. */
  function Line(key: string, value: string): string {
    "  " + ShownKey(key) + " = " + Reformat(value)
  }

  /** The entries of category `c`, as lines, in iteration order. */
  function Lines(entries: seq<(string, string)>, c: Category): seq<string> {
    if entries == [] then []
    else
      var last := entries[|entries| - 1];
      var earlier := Lines(entries[..|entries| - 1], c);
      if Classify(last.0) == c then earlier + [Line(last.0, last.1)] else earlier
  }

  /** The loop of `displayProfile` over the agent configuration's entries. */
  method ClassifyAgentConfig(entries: seq<(string, string)>)
    returns (agentProperties: seq<string>, systemProperties: seq<string>, configProperties: seq<string>)
    ensures agentProperties == Lines(entries, AgentProperties)
    ensures systemProperties == Lines(entries, SystemProperties)
    ensures configProperties == Lines(entries, ConfigProperties)
  {
    agentProperties, systemProperties, configProperties := [], [], [];
    for i := 0 to |entries|
      invariant agentProperties == Lines(entries[..i], AgentProperties)
      invariant systemProperties == Lines(entries[..i], SystemProperties)
      invariant configProperties == Lines(entries[..i], ConfigProperties)
    {
      assert entries[..i + 1][..i] == entries[..i];
      var (key, value) := entries[i];
      if ',' in value {
        value := "\t" + ReplaceChar(value, ',', ",\n\t\t");
      }
      if StartsWith(key, "system.") {
        systemProperties := systemProperties + ["  " + key[|"system."|..] + " = " + value];
      } else if StartsWith(key, "config.") {
        configProperties := configProperties + ["  " + key[|"config."|..] + " = " + value];
      } else if !StartsWith(key, "feature.") && !StartsWith(key, "repository")
                && !StartsWith(key, "bundle.") && !StartsWith(key, "fab.")
                && !StartsWith(key, "override.") && !StartsWith(key, "attribute.") {
        agentProperties := agentProperties + ["  " + key + " = " + value];
      }
    }
    assert entries[..|entries|] == entries;
  }

  /** `system.` keys are system properties, then `config.` keys config properties;
      of the rest, the keys with a hidden prefix are listed nowhere and all others
      are agent properties. */
  lemma ClassifyMeans(key: string)
    ensures Classify(key) == SystemProperties <==> StartsWith(key, SystemPrefix)
    ensures Classify(key) == ConfigProperties <==> !StartsWith(key, SystemPrefix) && StartsWith(key, ConfigPrefix)
    ensures Classify(key) == NotListed
        <==> !StartsWith(key, SystemPrefix) && !StartsWith(key, ConfigPrefix) && HasHiddenPrefix(key)
    ensures Classify(key) == AgentProperties
        <==> !StartsWith(key, SystemPrefix) && !StartsWith(key, ConfigPrefix) && !HasHiddenPrefix(key)
  {
    if HasHiddenPrefix(key) {
      var i :| 0 <= i < |HiddenPrefixes| && StartsWith(key, HiddenPrefixes[i]);
    } else {
      assert !StartsWith(key, HiddenPrefixes[0]) && !StartsWith(key, HiddenPrefixes[1]);
      assert !StartsWith(key, HiddenPrefixes[2]) && !StartsWith(key, HiddenPrefixes[3]);
      assert !StartsWith(key, HiddenPrefixes[4]) && !StartsWith(key, HiddenPrefixes[5]);
    }
  }

  /** A line is in a list exactly when some entry of that category gives it. */
  lemma {:induction false} LinesMeans(entries: seq<(string, string)>, c: Category, line: string)
    ensures line in Lines(entries, c)
        <==> exists i :: 0 <= i < |entries| && Classify(entries[i].0) == c && line == Line(entries[i].0, entries[i].1)
  {
    if entries != [] {
      var m := |entries| - 1;
      var init := entries[..m];
      LinesMeans(init, c, line);
      assert forall i :: 0 <= i < m ==> init[i] == entries[i];
    }
  }

  /** Every entry lands in exactly one category, so in at most one list: the list
      lengths and the unlisted entries add up to the number of entries. */
  lemma {:induction false} CategoriesPartition(entries: seq<(string, string)>)
    ensures |Lines(entries, AgentProperties)| + |Lines(entries, SystemProperties)|
            + |Lines(entries, ConfigProperties)| + |Lines(entries, NotListed)| == |entries|
  {
    if entries != [] {
      CategoriesPartition(entries[..|entries| - 1]);
    }
  }

  /** A list entry names the key without its category prefix. */
  lemma StrippedKeys(key: string, value: string)
    ensures Classify(key) == SystemProperties ==> SystemPrefix + ShownKey(key) == key
    ensures Classify(key) == ConfigProperties ==> ConfigPrefix + ShownKey(key) == key
    ensures Classify(key) == AgentProperties ==> ShownKey(key) == key
    ensures StartsWith(Line(key, value), "  " + ShownKey(key) + " = ")
  {
    var head := "  " + ShownKey(key) + " = ";
    assert Line(key, value)[..|head|] == head;
    if StartsWith(key, SystemPrefix) {
      assert key == key[..|SystemPrefix|] + key[|SystemPrefix|..];
    } else if StartsWith(key, ConfigPrefix) {
      assert key == key[..|ConfigPrefix|] + key[|ConfigPrefix|..];
    }
  }

  /** Reading a shown value back: undo the indentation and the line breaks. */
  function Unformat(shown: string): string {
    if ',' in shown && shown != [] && shown[0] == '\t' then Collapse(shown[1..]) else shown
  }

  /** Every `",\n\t\t"` back to `","`. */
  function Collapse(s: string): string {
    if |s| >= 4 && s[..4] == ",\n\t\t" then "," + Collapse(s[4..])
    else if s == [] then []
    else [s[0]] + Collapse(s[1..])
  }

  lemma {:induction false} CollapseExpanded(value: string)
    ensures Collapse(ReplaceChar(value, ',', ",\n\t\t")) == value
  {
    if value != [] {
      var rest := ReplaceChar(value[1..], ',', ",\n\t\t");
      CollapseExpanded(value[1..]);
      if value[0] == ',' {
        var s := ",\n\t\t" + rest;
        assert s[..4] == ",\n\t\t" && s[4..] == rest;
      } else {
        var s := [value[0]] + rest;
        assert s[0] != ',';
        assert s[1..] == rest;
      }
    }
  }

  lemma {:induction false} ExpandedKeepsComma(value: string)
    requires ',' in value
    ensures ',' in ReplaceChar(value, ',', ",\n\t\t")
  {
    if value[0] != ',' {
      ExpandedKeepsComma(value[1..]);
    }
  }

  /** The reformatting loses nothing: the value can be read back. */
  lemma ReformatRoundTrip(value: string)
    ensures Unformat(Reformat(value)) == value
  {
    if ',' in value {
      ExpandedKeepsComma(value);
      var expanded := ReplaceChar(value, ',', ",\n\t\t");
      var shown := "\t" + expanded;
      assert shown[1..] == expanded;
      assert ',' in shown;
      CollapseExpanded(value);
    }
  }

  // ---------------------------------------------------------------------------
  // Configuration details and other resources
  // ---------------------------------------------------------------------------

  /** The PIDs and their properties, as `getConfigurations` returns them. */
  type Configurations = map<string, map<string, string>>

  /** The working copy of the configurations after the container settings: the
      agent PID is gone, every other PID is kept with its properties. The profile's
      own map is a value here and is untouched. */
  method ConfigurationDetails(configurations: Configurations, agentPid: string)
    returns (containerSettings: bool, configuration: Configurations)
    ensures containerSettings <==> agentPid in configurations
    ensures agentPid !in configuration
    ensures forall pid :: pid != agentPid ==>
      (pid in configuration <==> pid in configurations)
    ensures forall pid :: pid in configuration ==> configuration[pid] == configurations[pid]
  {
    configuration := configurations;
    containerSettings := agentPid in configuration;
    if containerSettings {
      configuration := configuration - {agentPid};
    }
  }

  /** The resource names listed, in iteration order. */
  function OtherResources(names: seq<string>): seq<string> {
    if names == [] then []
    else
      var last := names[|names| - 1];
      var earlier := OtherResources(names[..|names| - 1]);
      if !EndsWith(last, ".properties") then earlier + [last] else earlier
  }

  /** The loop of `displayProfile` over the profile's file configurations. */
  method ListOtherResources(names: seq<string>) returns (listed: seq<string>)
    ensures listed == OtherResources(names)
  {
    listed := [];
    for i := 0 to |names|
      invariant listed == OtherResources(names[..i])
    {
      assert names[..i + 1][..i] == names[..i];
      var name := names[i];
      if !EndsWith(name, ".properties") {
        listed := listed + [name];
      }
    }
    assert names[..|names|] == names;
  }

  /** A resource is listed exactly when its name does not end in `.properties`. */
  lemma {:induction false} OtherResourcesMeans(names: seq<string>, name: string)
    ensures name in OtherResources(names) <==> name in names && !EndsWith(name, ".properties")
  {
    if names != [] {
      var m := |names| - 1;
      OtherResourcesMeans(names[..m], name);
      assert names == names[..m] + [names[m]];
    }
  }
}
