/** internal/cli/setup.go: detecting an installed watchman hook in the agent's
    settings and merging the hook into them. Reading and writing settings.json,
    the home directory and printing are not part of this model. */
module Setup {
  import opened Wrappers
  import opened Strings
  import opened JsonValue

  /** One element of an entry's `hooks` list names watchman: the bare string
      `watchman`, or an object whose string `command` contains `watchman`. */
  predicate HookNamesWatchman(h: Json)
  {
    h == Str("watchman")
    || (h.Object? && StringField(h.fields, "command").Some?
        && Contains(StringField(h.fields, "command").value, "watchman"))
  }

  /** A PreToolUse entry that is an object with a `hooks` list naming watchman. */
  predicate EntryNamesWatchman(e: Json)
  {
    e.Object? && ArrayField(e.fields, "hooks").Some?
    && exists j :: 0 <= j < |ArrayField(e.fields, "hooks").value|
                   && HookNamesWatchman(ArrayField(e.fields, "hooks").value[j])
  }

  predicate HasWatchman(preToolUse: seq<Json>)
  {
    exists i :: 0 <= i < |preToolUse| && EntryNamesWatchman(preToolUse[i])
  }

  /** hasWatchmanHook: the entries and their hook lists searched in order; anything
      that is not an object, or has no `hooks` list, is skipped. The path argument is
      never consulted. */
  method HasWatchmanHook(preToolUse: seq<Json>, watchmanPath: string) returns (found: bool)
    ensures found <==> HasWatchman(preToolUse)
  {
    var i := 0;
    while i < |preToolUse|
      invariant 0 <= i <= |preToolUse|
      invariant forall k :: 0 <= k < i ==> !EntryNamesWatchman(preToolUse[k])
    {
      var entry := preToolUse[i];
      if entry.Object? {
        var hooksList := ArrayField(entry.fields, "hooks");
        if hooksList.Some? {
          var hs := hooksList.value;
          var j := 0;
          while j < |hs|
            invariant 0 <= j <= |hs|
            invariant forall m :: 0 <= m < j ==> !HookNamesWatchman(hs[m])
          {
            if hs[j] == Str("watchman") {
              return true;
            }
            if hs[j].Object? {
              var command := StringField(hs[j].fields, "command");
              if command.Some? && Contains(command.value, "watchman") {
                return true;
              }
            }
            j := j + 1;
          }
        }
      }
      i := i + 1;
    }
    return false;
  }

  /** The PreToolUse list RunSetup inspects: `hooks.PreToolUse` when `hooks` is an
      object and that field a list, otherwise the empty list. */
  function PreToolUseOf(settings: map<string, Json>): seq<Json>
  {
    match ObjectField(settings, "hooks")
      case None => []
      case Some(hooks) =>
        match ArrayField(hooks, "PreToolUse")
          case None => []
          case Some(pre) => pre
  }

  /** The entry RunSetup installs. */
  function WatchmanEntry(watchmanPath: string): (e: Json)
    ensures e.Object? && StringField(e.fields, "matcher") == Some("*")
    ensures e.Object? && ArrayField(e.fields, "hooks").Some? && |ArrayField(e.fields, "hooks").value| == 1
  {
    Object(map["matcher" := Str("*"),
               "hooks" := Array([Object(map["type" := Str("command"), "command" := Str(watchmanPath)])])])
  }

  datatype SetupResult = AlreadyConfigured | Updated(settings: map<string, Json>)

  /** The settings merge of RunSetup: nothing when watchman is already hooked,
      otherwise `hooks` (replaced by an empty object when it is not one) gets a
      PreToolUse list holding the watchman entry alone. */
  function Configure(settings: map<string, Json>, watchmanPath: string): (r: SetupResult)
    ensures r.AlreadyConfigured? <==> HasWatchman(PreToolUseOf(settings))
    ensures r.Updated? ==> r.settings.Keys == settings.Keys + {"hooks"}
    ensures r.Updated? ==> forall k :: k in settings && k != "hooks" ==> r.settings[k] == settings[k]
    ensures r.Updated? ==> ObjectField(r.settings, "hooks").Some?
    ensures r.Updated? ==> var hooks' := ObjectField(r.settings, "hooks").value;
      ArrayField(hooks', "PreToolUse") == Some([WatchmanEntry(watchmanPath)])
      && forall k :: k in hooks' && k != "PreToolUse" ==>
                       ObjectField(settings, "hooks").Some? && k in ObjectField(settings, "hooks").value
                       && hooks'[k] == ObjectField(settings, "hooks").value[k]
    ensures r.Updated? && ObjectField(settings, "hooks").Some? ==>
      ObjectField(r.settings, "hooks").value.Keys == ObjectField(settings, "hooks").value.Keys + {"PreToolUse"}
  {
    if HasWatchman(PreToolUseOf(settings)) then AlreadyConfigured
    else
      var hooks := match ObjectField(settings, "hooks") case Some(h) => h case None => map[];
      Updated(settings["hooks" := Object(hooks["PreToolUse" := Array([WatchmanEntry(watchmanPath)])])])
  }

  /** The installed entry is recognised by hasWatchmanHook whenever the command path
      mentions watchman, as the `~/go/bin/watchman` path RunSetup builds does. */
  lemma InstalledEntryRecognised(watchmanPath: string)
    requires Contains(watchmanPath, "watchman")
    ensures EntryNamesWatchman(WatchmanEntry(watchmanPath))
  {
    var e := WatchmanEntry(watchmanPath);
    var h := Object(map["type" := Str("command"), "command" := Str(watchmanPath)]);
    assert ArrayField(e.fields, "hooks").value[0] == h;
    assert HookNamesWatchman(h);
  }

  /** Running the merge on its own output changes nothing more. */
  lemma SecondRunIsNoop(settings: map<string, Json>, watchmanPath: string)
    requires Contains(watchmanPath, "watchman")
    requires Configure(settings, watchmanPath).Updated?
    ensures Configure(Configure(settings, watchmanPath).settings, watchmanPath).AlreadyConfigured?
  {
    var s' := Configure(settings, watchmanPath).settings;
    InstalledEntryRecognised(watchmanPath);
    assert PreToolUseOf(s') == [WatchmanEntry(watchmanPath)];
    assert EntryNamesWatchman(PreToolUseOf(s')[0]);
  }

  /** Other PreToolUse hooks do not survive the merge. */
  lemma OtherPreToolUseHooksDropped(settings: map<string, Json>, watchmanPath: string)
    requires Configure(settings, watchmanPath).Updated?
    ensures |PreToolUseOf(Configure(settings, watchmanPath).settings)| == 1
  {
  }
}
