/**
  Ownership of a launch entry in a host's settings (src/installer/ownership.ts): installing replaces
  the launch fields of the entry and records in a receipt what was there before; uninstalling gives
  it back. `http` tells which texts are URLs of the http and https protocols.

  A run is an installation followed by edits of the user and refreshes in any order. The receipt
  remembers the launch the user last chose (`EveryRunRemembers`), so uninstalling gives that launch back
  next to the current other settings (`UninstallGivesBack`, with its exact condition), and an entry whose
  launch was changed after the last refresh stays as it is (`ChangedLaunchIsKept`).
*/
module LaunchReceipts {
  import opened Options

  datatype Json = Text(text: string) | Texts(items: seq<string>) | Other(json: string)

  type Entry = map<string, Json>

  datatype Receipt = Receipt(before: Option<Entry>, installed: Entry)

  const LaunchFields: set<string> := {"command", "args", "cwd", "url", "type"}
  const OwnedFields: set<string> := LaunchFields + {"tools"}

  /** launchSettings. */
  function Launch(e: Entry): Entry {
    map key | key in e && key in LaunchFields :: e[key]
  }

  /** The settings that are not launch fields. */
  function Extras(e: Entry): Entry {
    e - LaunchFields
  }

  function Tools(e: Entry): Entry {
    map key | key in e && key == "tools" :: e[key]
  }

  predicate NonBlank(s: string) {
    exists i :: 0 <= i < |s| && s[i] != ' ' && !('\t' <= s[i] <= '\r')
  }

  predicate IsText(e: Entry, key: string) {
    key in e && e[key].Text?
  }

  predicate TextsOrMissing(e: Entry, key: string) {
    key in e ==> e[key].Texts?
  }

  predicate TypeIn(e: Entry, types: set<string>) {
    "type" in e ==> e["type"].Text? && e["type"].text in types
  }

  /** validLaunch. */
  predicate ValidLaunch(e: Entry, http: string -> bool) {
    && e.Keys <= OwnedFields
    && (forall key :: key in {"command", "cwd", "url", "type"} && key in e ==> e[key].Text? && NonBlank(e[key].text))
    && TextsOrMissing(e, "args") && TextsOrMissing(e, "tools")
    && (IsText(e, "command") <==> !IsText(e, "url"))
    && (if IsText(e, "command") then TypeIn(e, {"local", "stdio"})
        else "args" !in e && "cwd" !in e && TypeIn(e, {"http", "sse"}) && http(e["url"].text))
  }

  /** parseLaunchReceipt. */
  function ParseReceipt(r: Option<Receipt>, http: string -> bool): Option<Receipt> {
    if r.Some? && (r.value.before.Some? ==> ValidLaunch(r.value.before.value, http))
       && ValidLaunch(r.value.installed, http)
    then r else None
  }

  // ---------------------------------------------------------------- installing

  function Owned(e: Entry, ownsTools: bool): Entry {
    Launch(e) + if ownsTools then Tools(e) else map[]
  }

  predicate SameLaunch(e: Entry, r: Option<Receipt>) {
    r.Some? && Launch(e) == Launch(r.value.installed)
  }

  predicate ToolsChanged(e: Entry, r: Receipt) {
    "tools" in r.installed && Tools(e) != Tools(r.installed)
  }

  /** Deleting `tools` and copying it from an entry that has it. */
  lemma PutTools(e: Entry, source: Entry)
    ensures (e - {"tools"}) + Tools(source)
         == if "tools" in source then (e - {"tools"})["tools" := source["tools"]] else e - {"tools"}
  {
  }

  /** launchReceipt. */
  method LaunchReceipt(
    existing: Entry, installed: Entry, earlier: Option<Receipt>, ownsTools: bool, http: string -> bool)
    returns (receipt: Receipt)
    ensures receipt == NextReceipt(existing, installed, earlier, ownsTools, http)
  {
    var previous := ParseReceipt(earlier, http);
    var sameLaunch := previous.Some? && Launch(existing) == Launch(previous.value.installed);
    var toolsChanged := sameLaunch && "tools" in previous.value.installed
                        && Tools(existing) != Tools(previous.value.installed);
    var existingOwned := Launch(existing) + if ownsTools then Tools(existing) else map[];
    var before: Option<Entry>;
    if sameLaunch {
      before := previous.value.before;
    } else if ValidLaunch(existingOwned, http) {
      before := Some(existingOwned);
    } else {
      before := None;
    }
    if toolsChanged {
      var kept := if before.Some? then before.value else Launch(existing);
      kept := kept - {"tools"};
      if "tools" in existing {
        kept := kept["tools" := existing["tools"]];
      }
      PutTools(if before.Some? then before.value else Launch(existing), existing);
      before := Some(kept);
    }
    receipt := Receipt(before, Launch(installed) + if ownsTools then Tools(installed) else map[]);
  }

  function NextReceipt(
    existing: Entry, installed: Entry, earlier: Option<Receipt>, ownsTools: bool, http: string -> bool)
    : Receipt
  {
    var previous := ParseReceipt(earlier, http);
    var kept :=
      if SameLaunch(existing, previous) then previous.value.before
      else if ValidLaunch(Owned(existing, ownsTools), http) then Some(Owned(existing, ownsTools))
      else None;
    var before :=
      if SameLaunch(existing, previous) && ToolsChanged(existing, previous.value) then
        Some(((if kept.Some? then kept.value else Launch(existing)) - {"tools"}) + Tools(existing))
      else kept;
    Receipt(before, Owned(installed, ownsTools))
  }

  // ---------------------------------------------------------------- uninstalling

  /** removeManagedEntry: the entry to keep, or None when it is removed. */
  method RemoveManagedEntry(existing: Entry, stored: Option<Receipt>, http: string -> bool)
    returns (kept: Option<Entry>)
    ensures kept == Removed(existing, stored, http)
  {
    var receipt := ParseReceipt(stored, http);
    if receipt.None? || Launch(existing) != Launch(receipt.value.installed) {
      return Some(existing);
    }
    var installed := receipt.value.installed;
    var extras := existing - LaunchFields;
    var before := receipt.value.before;
    var ownsTools := "tools" in installed;
    if before.Some? && ownsTools && Tools(existing) != Tools(installed) {
      var entry := before.value - {"tools"};
      if "tools" in existing {
        entry := entry["tools" := existing["tools"]];
      }
      PutTools(before.value, existing);
      before := Some(entry);
    }
    if ownsTools && !(before.Some? && "tools" in before.value) && Tools(extras) == Tools(installed) {
      extras := extras - {"tools"};
    }
    if before.Some? {
      return Some(before.value + extras);
    }
    kept := if extras != map[] then Some(existing) else None;
  }

  function Removed(existing: Entry, stored: Option<Receipt>, http: string -> bool): Option<Entry> {
    var receipt := ParseReceipt(stored, http);
    if !SameLaunch(existing, receipt) then Some(existing)
    else
      var installed := receipt.value.installed;
      var before :=
        if receipt.value.before.Some? && ToolsChanged(existing, receipt.value)
        then Some((receipt.value.before.value - {"tools"}) + Tools(existing)) else receipt.value.before;
      var extras :=
        if "tools" in installed && !(before.Some? && "tools" in before.value)
           && Tools(Extras(existing)) == Tools(installed)
        then Extras(existing) - {"tools"} else Extras(existing);
      if before.Some? then Some(before.value + extras)
      else if extras != map[] then Some(existing)
      else None
  }

  // ---------------------------------------------------------------- the life of an entry

  /** The entry of the host (None when absent), the stored receipt, and the launch the user last chose. */
  datatype State = State(entry: Option<Entry>, receipt: Option<Receipt>, chosen: Entry)

  /** The user rewrites the entry in any way, or the installer installs or refreshes a definition. */
  datatype Event = Edit(entry: Option<Entry>) | Install(definition: Entry)

  function Current(s: State): Entry {
    if s.entry.Some? then s.entry.value else map[]
  }

  predicate IsDefinition(d: Entry, http: string -> bool) {
    ValidLaunch(d, http) && d.Keys <= LaunchFields
  }

  function Step(s: State, e: Event, http: string -> bool): State {
    match e
    case Edit(entry) => s.(entry := entry)
    case Install(d) =>
      var next := Extras(Current(s)) + d;
      State(Some(next), Some(NextReceipt(Current(s), next, s.receipt, false, http)),
            if SameLaunch(Current(s), s.receipt) then s.chosen else Launch(Current(s)))
  }

  function Run(s: State, events: seq<Event>, http: string -> bool): State
    decreases |events|
  {
    if events == [] then s else Run(Step(s, events[0], http), events[1..], http)
  }

  function Begin(original: Option<Entry>): State {
    State(original, None, Launch(if original.Some? then original.value else map[]))
  }

  predicate Definitions(events: seq<Event>, http: string -> bool) {
    forall i :: 0 <= i < |events| && events[i].Install? ==> IsDefinition(events[i].definition, http)
  }

  /** The receipt remembers the launch the user chose, if it is a valid one, and the installed launch. */
  ghost predicate Remembers(s: State, http: string -> bool) {
    s.receipt.Some? ==>
      && IsDefinition(s.receipt.value.installed, http)
      && s.receipt.value.before == (if ValidLaunch(s.chosen, http) then Some(s.chosen) else None)
      && s.chosen.Keys <= LaunchFields
  }

  lemma LaunchOfDefinition(e: Entry, d: Entry)
    requires d.Keys <= LaunchFields
    ensures Launch(Extras(e) + d) == d && Launch(d) == d && Extras(Extras(e) + d) == Extras(e)
    ensures Launch(e).Keys <= LaunchFields
  {
  }

  lemma InstallRemembers(s: State, d: Entry, http: string -> bool)
    requires Remembers(s, http) && IsDefinition(d, http)
    ensures Remembers(Step(s, Install(d), http), http)
  {
    var e := Current(s);
    LaunchOfDefinition(e, d);
    assert Owned(Extras(e) + d, false) == d;
    assert Owned(e, false) == Launch(e);
    hide ValidLaunch;
    if s.receipt.Some? {
      assert ParseReceipt(s.receipt, http) == s.receipt;
      assert "tools" !in s.receipt.value.installed;
    }
  }

  lemma {:induction false} EveryRunRemembers(s: State, events: seq<Event>, http: string -> bool)
    requires Remembers(s, http) && Definitions(events, http)
    ensures Remembers(Run(s, events, http), http)
    decreases |events|
  {
    if events != [] {
      if events[0].Install? { InstallRemembers(s, events[0].definition, http); }
      assert Remembers(Step(s, events[0], http), http);
      DefinitionsOn(events, http);
      EveryRunRemembers(Step(s, events[0], http), events[1..], http);
    }
  }

  /** What the user is owed: the chosen launch fields and the current other settings. */
  function Owed(chosen: Entry, current: Entry): Option<Entry> {
    if chosen + Extras(current) == map[] then None else Some(chosen + Extras(current))
  }

  /** An entry whose launch the user changed is returned untouched. */
  lemma ChangedLaunchIsKept(existing: Entry, receipt: Receipt, http: string -> bool)
    requires Launch(existing) != Launch(receipt.installed)
    ensures Removed(existing, Some(receipt), http) == Some(existing)
  {
  }

  /**
    After any installs, refreshes and edits, uninstalling an entry with the installed launch gives the
    user what is owed exactly when the chosen launch was valid, or when nothing at all is owed. (An
    entry that was absent and got other settings since is kept whole, with the installed launch.)
  */
  lemma UninstallGivesBack(original: Option<Entry>, events: seq<Event>, http: string -> bool)
    requires Definitions(events, http)
    requires var s := Run(Begin(original), events, http);
             s.receipt.Some? && s.entry.Some? && Launch(s.entry.value) == Launch(s.receipt.value.installed)
    ensures var s := Run(Begin(original), events, http);
            (Removed(s.entry.value, s.receipt, http) == Owed(s.chosen, s.entry.value)
             <==> ValidLaunch(s.chosen, http) || Owed(s.chosen, s.entry.value) == None)
  {
    EveryRunRemembers(Begin(original), events, http);
    var s := Run(Begin(original), events, http);
    hide Run, ValidLaunch;
    var e, d := s.entry.value, s.receipt.value.installed;
    assert ParseReceipt(s.receipt, http) == s.receipt;
    assert "tools" !in d;
    assert Launch(d) == d;
    if ValidLaunch(s.chosen, http) {
      ValidIsNotEmpty(s.chosen, http);
      assert Removed(e, s.receipt, http) == Some(s.chosen + Extras(e));
    } else {
      ChosenOrInstalled(e, s.chosen, d, http);
    }
  }

  lemma ValidIsNotEmpty(e: Entry, http: string -> bool)
    requires ValidLaunch(e, http)
    ensures forall extras: Entry :: e + extras != map[]
  {
    assert "command" in e || "url" in e;
    forall extras: Entry ensures e + extras != map[] {
      if "command" in e { assert "command" in e + extras; } else { assert "url" in e + extras; }
    }
  }

  /** An entry that carries the installed launch is not what is owed to a user who chose an invalid one. */
  lemma ChosenOrInstalled(e: Entry, chosen: Entry, d: Entry, http: string -> bool)
    requires Launch(e) == d && ValidLaunch(d, http) && !ValidLaunch(chosen, http) && chosen.Keys <= LaunchFields
    ensures e != chosen + Extras(e)
  {
    assert Launch(chosen + Extras(e)) == chosen;
  }


  /** The user's edits leave the launch fields as they are. */
  predicate KeepsLaunch(s: State, events: seq<Event>, http: string -> bool)
    decreases |events|
  {
    events != [] ==>
      && (events[0].Edit? ==> events[0].entry.Some? && Launch(events[0].entry.value) == Launch(Current(s)))
      && KeepsLaunch(Step(s, events[0], http), events[1..], http)
  }

  /** The launch in the entry is the installed one, or still the chosen one before the first install. */
  predicate Untouched(s: State) {
    Launch(Current(s)) == if s.receipt.Some? then Launch(s.receipt.value.installed) else s.chosen
  }

  lemma DefinitionsOn(events: seq<Event>, http: string -> bool)
    requires events != [] && Definitions(events, http)
    ensures Definitions(events[1..], http)
  {
    forall i | 0 <= i < |events[1..]| && events[1..][i].Install?
      ensures IsDefinition(events[1..][i].definition, http)
    {
      assert events[1..][i] == events[i + 1];
    }
  }

  /** One event that leaves the launch fields to the installer. */
  lemma StepKeepsChosen(s: State, e: Event, http: string -> bool)
    requires Untouched(s) && (e.Install? ==> IsDefinition(e.definition, http))
    requires e.Edit? ==> e.entry.Some? && Launch(e.entry.value) == Launch(Current(s))
    ensures Untouched(Step(s, e, http)) && Step(s, e, http).chosen == s.chosen
  {
    hide ValidLaunch;
    if e.Install? {
      LaunchOfDefinition(Current(s), e.definition);
      assert Owned(Extras(Current(s)) + e.definition, false) == e.definition;
    }
  }

  lemma {:induction false} ChosenIsKept(s: State, events: seq<Event>, http: string -> bool)
    requires Untouched(s) && Definitions(events, http) && KeepsLaunch(s, events, http)
    ensures Untouched(Run(s, events, http)) && Run(s, events, http).chosen == s.chosen
    decreases |events|
  {
    if events != [] {
      DefinitionsOn(events, http);
      StepKeepsChosen(s, events[0], http);
      hide Untouched, Step, IsDefinition, Launch;
      ChosenIsKept(Step(s, events[0], http), events[1..], http);
    }
  }

  /**
    Install, any refreshes and edits of other settings, then uninstall: the user gets the original launch
    fields and the current other settings, exactly when the original launch was valid or nothing is owed.
  */
  lemma RoundTripRestoresLaunch(original: Option<Entry>, events: seq<Event>, http: string -> bool)
    requires Definitions(events, http) && KeepsLaunch(Begin(original), events, http)
    requires Run(Begin(original), events, http).receipt.Some? && Run(Begin(original), events, http).entry.Some?
    ensures var s, launch := Run(Begin(original), events, http), Begin(original).chosen;
            (Removed(s.entry.value, s.receipt, http) == Owed(launch, s.entry.value)
             <==> ValidLaunch(launch, http) || Owed(launch, s.entry.value) == None)
  {
    ChosenIsKept(Begin(original), events, http);
    UninstallGivesBack(original, events, http);
  }

  const Definition: Entry := map["command" := Text("serve")]
  const WithSetting: Entry := map["command" := Text("serve"), "env" := Other("{}")]

  lemma DefinitionIsValid(http: string -> bool)
    ensures IsDefinition(Definition, http) && !ValidLaunch(map[], http)
    ensures Launch(Definition) == Definition && Extras(Definition) == map[]
  {
    assert NonBlank("serve") by { assert "serve"[0] != ' ' && !('\t' <= "serve"[0] <= '\r'); }
    assert IsText(Definition, "command") && Definition["command"] == Text("serve");
    assert !IsText(map[], "command") && !IsText(map[], "url");
  }

  lemma SettingParts()
    ensures Launch(WithSetting) == Definition && Extras(WithSetting) == map["env" := Other("{}")]
  {
  }

  lemma InstallFirst(http: string -> bool)
    ensures Step(Begin(None), Install(Definition), http)
         == State(Some(Definition), Some(Receipt(None, Definition)), map[])
  {
    DefinitionIsValid(http);
    hide ValidLaunch;
    var none: Entry := map[];
    assert Launch(none) == none && Extras(none) == none && none + Definition == Definition;
    assert Owned(none, false) == none && Owned(Definition, false) == Definition;
  }

  lemma SettingIsKeptWhole(http: string -> bool)
    ensures Removed(WithSetting, Some(Receipt(None, Definition)), http) == Some(WithSetting)
    ensures Owed(map[], WithSetting) == Some(map["env" := Other("{}")])
  {
    DefinitionIsValid(http);
    SettingParts();
    hide ValidLaunch, Launch;
    var owed: Entry := map["env" := Other("{}")];
    assert "env" in owed && owed != map[] && map[] + owed == owed;
    assert Extras(WithSetting) == owed;
  }

  /**
    A run that does not give back what is owed: the entry was absent, it is installed, the user adds the
    setting `env`, and uninstalling keeps the whole entry with the installed launch.
  */
  lemma AddedSettingKeepsTheLaunch(http: string -> bool)
    ensures var events := [Install(Definition), Edit(Some(WithSetting))];
            var s := Run(Begin(None), events, http);
            && Definitions(events, http) && KeepsLaunch(Begin(None), events, http)
            && s.entry == Some(WithSetting) && s.chosen == map[]
            && Removed(WithSetting, s.receipt, http) == Some(WithSetting)
            && Owed(s.chosen, WithSetting) == Some(map["env" := Other("{}")])
  {
    var edit := Edit(Some(WithSetting));
    var events := [Install(Definition), edit];
    var installed := Step(Begin(None), events[0], http);
    DefinitionIsValid(http);
    SettingParts();
    InstallFirst(http);
    SettingIsKeptWhole(http);
    hide ValidLaunch, Launch, Removed, Owed, NextReceipt;
    assert events[1..] == [edit] && [edit][1..] == [];
    var end := installed.(entry := Some(WithSetting));
    assert Run(installed, [edit], http) == Run(end, [], http) == end;
    assert Run(Begin(None), events, http) == Run(installed, [edit], http);
    assert KeepsLaunch(end, [], http) && KeepsLaunch(installed, [edit], http);
  }

  // ---------------------------------------------------------------- entries that own their tools

  const EveryTool: Entry := map["tools" := Texts(["*"])]

  /** managedToolSelection. */
  function ManagedTools(existing: Entry, previous: Option<Receipt>, http: string -> bool): Entry {
    if "tools" in existing then Tools(existing)
    else if ParseReceipt(previous, http).Some? || existing != map[] then map[]
    else EveryTool
  }

  /** The entry that an installation with tools writes. */
  function WithTools(existing: Entry, d: Entry, previous: Option<Receipt>, http: string -> bool): Entry {
    (if Tools(existing) == EveryTool then Extras(existing) - {"tools"} else Extras(existing))
    + d + ManagedTools(existing, previous, http)
  }

  lemma LaunchOfParts(extras: Entry, d: Entry, tools: Entry)
    requires d.Keys <= LaunchFields && tools.Keys <= {"tools"} && extras.Keys !! LaunchFields
    ensures Launch(extras + d + tools) == d
  {
    assert "tools" !in LaunchFields;
  }

  lemma ToolsOfParts(d: Entry, tools: Entry)
    requires d.Keys <= LaunchFields && tools.Keys <= {"tools"}
    ensures Launch(d + tools) == d && Tools(d + tools) == tools
  {
    assert "tools" !in LaunchFields;
  }

  lemma ToolsOfInstalled(extras: Entry, d: Entry, tools: Entry)
    requires d.Keys <= LaunchFields && tools.Keys <= {"tools"} && extras.Keys !! LaunchFields
    requires Tools(extras + d + tools) == tools
    ensures Owned(extras + d + tools, true) == d + tools && Launch(d + tools) == d && Tools(d + tools) == tools
  {
    LaunchOfParts(extras, d, tools);
    ToolsOfParts(d, tools);
    hide Launch, Tools;
  }

  lemma ToolsOfWithTools(existing: Entry, d: Entry, http: string -> bool)
    requires d.Keys <= LaunchFields
    ensures var tools := ManagedTools(existing, None, http);
            Owned(WithTools(existing, d, None, http), true) == d + tools && Launch(d + tools) == d
            && Tools(d + tools) == tools
  {
    var tools := ManagedTools(existing, None, http);
    var extras := if Tools(existing) == EveryTool then Extras(existing) - {"tools"} else Extras(existing);
    assert "tools" !in LaunchFields;
    assert "tools" in extras ==> "tools" in existing;
    ToolsOfInstalled(extras, d, tools);
  }

  lemma NoneIsInvalid(http: string -> bool)
    ensures Owned(map[], true) == map[] && !ValidLaunch(map[], http)
  {
    var none: Entry := map[];
    assert !IsText(none, "command") && !IsText(none, "url");
  }

  lemma ValidWithTools(d: Entry, tools: Entry, http: string -> bool)
    requires IsDefinition(d, http) && tools.Keys <= {"tools"} && TextsOrMissing(tools, "tools")
    ensures ValidLaunch(d + tools, http)
  {
    assert forall key :: key in LaunchFields ==> (key in d + tools <==> key in d);
    assert forall key :: key in LaunchFields && key in d ==> (d + tools)[key] == d[key];
  }

  lemma ToolsOfOwned(e: Entry)
    ensures Tools(Launch(e) + Tools(e)) == Tools(e) && Launch(Launch(e) + Tools(e)) == Launch(e)
    ensures Extras(e) + Tools(e) == Extras(e)
  {
  }

  /**
    Installing into an entry with a valid launch and uninstalling gives back that launch with the current
    other settings, the current tools among them, whatever the user did to the settings in between.
  */
  lemma ToolsAreGivenBack(e: Entry, d: Entry, now: Entry, http: string -> bool)
    requires IsDefinition(d, http) && ValidLaunch(Owned(e, true), http) && Launch(now) == d
    ensures var receipt := NextReceipt(e, WithTools(e, d, None, http), None, true, http);
            Removed(now, Some(receipt), http) == Some(Launch(e) + Extras(now))
  {
    ToolsOfWithTools(e, d, http);
    ToolsOfOwned(e);
    NoneIsInvalid(http);
    var installed, before := d + ManagedTools(e, None, http), Owned(e, true);
    ValidWithTools(d, ManagedTools(e, None, http), http);
    hide ValidLaunch, Launch, Extras, Tools, WithTools;
    var receipt := Receipt(Some(before), installed);
    assert NextReceipt(e, WithTools(e, d, None, http), None, true, http) == receipt;
    assert ParseReceipt(Some(receipt), http) == Some(receipt);
    OwnedParts(e);
    GivenBack(Launch(e), Tools(e), now, installed);
  }

  lemma OwnedParts(e: Entry)
    ensures Launch(e).Keys <= LaunchFields && Tools(e).Keys <= {"tools"}
  {
  }

  /** What uninstalling composes is the launch with the current other settings. */
  lemma GivenBack(launch: Entry, tools: Entry, now: Entry, installed: Entry)
    requires launch.Keys <= LaunchFields && tools.Keys <= {"tools"}
    requires Tools(installed) == tools
    ensures var changed := "tools" in installed && Tools(now) != Tools(installed);
            var before := if changed then ((launch + tools) - {"tools"}) + Tools(now) else launch + tools;
            var extras := if "tools" in installed && "tools" !in before && Tools(Extras(now)) == Tools(installed)
                          then Extras(now) - {"tools"} else Extras(now);
            before + extras == launch + Extras(now)
  {
    assert "tools" in installed <==> "tools" in tools;
    assert Tools(Extras(now)) == Tools(now);
    assert "tools" in now <==> "tools" in Extras(now);
  }

  /** Installed where nothing was, the default tools count as launch settings. */
  lemma DefaultToolsAreTaken(d: Entry, now: Entry, http: string -> bool)
    requires IsDefinition(d, http) && Launch(now) == d
    ensures var receipt := NextReceipt(map[], WithTools(map[], d, None, http), None, true, http);
            var extras := if Tools(now) == EveryTool then Extras(now) - {"tools"} else Extras(now);
            Removed(now, Some(receipt), http) == if extras == map[] then None else Some(now)
  {
    var none: Entry := map[];
    ToolsOfWithTools(none, d, http);
    NoneIsInvalid(http);
    assert ManagedTools(none, None, http) == EveryTool;
    ValidWithTools(d, EveryTool, http);
    var receipt := Receipt(None, d + EveryTool);
    hide ValidLaunch;
    assert NextReceipt(none, WithTools(none, d, None, http), None, true, http) == receipt;
    assert ParseReceipt(Some(receipt), http) == Some(receipt);
    assert Tools(Extras(now)) == Tools(now);
  }
}
