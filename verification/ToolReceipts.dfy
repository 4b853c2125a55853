/**
  The life of a launch entry that owns its tools (src/installer/ownership.ts, src/installer/index.ts):
  installing also settles the `tools` of the entry, and a receipt remembers them. A run is any sequence of
  edits of the user, installations and refreshes. What uninstalling gives back is said exactly, and tools
  that the user added before a refresh are what it can lose.
*/
module ToolReceipts {
  import opened Options
  import opened LaunchReceipts

  /** `chosen` are the launch fields and the tools of the last entry that the installer had not written. */
  datatype ToolState = ToolState(entry: Option<Entry>, receipt: Option<Receipt>, chosen: Entry)

  function Existing(s: ToolState): Entry {
    if s.entry.Some? then s.entry.value else map[]
  }

  function ToolStep(s: ToolState, e: Event, http: string -> bool): ToolState {
    match e
    case Edit(entry) => s.(entry := entry)
    case Install(d) =>
      var existing := Existing(s);
      var next := WithTools(existing, d, s.receipt, http);
      ToolState(Some(next), Some(NextReceipt(existing, next, s.receipt, true, http)),
                if SameLaunch(existing, ParseReceipt(s.receipt, http)) then s.chosen else Owned(existing, true))
  }

  function ToolRun(s: ToolState, events: seq<Event>, http: string -> bool): ToolState
    decreases |events|
  {
    if events == [] then s else ToolRun(ToolStep(s, events[0], http), events[1..], http)
  }

  function ToolBegin(original: Option<Entry>): ToolState {
    ToolState(original, None, Owned(if original.Some? then original.value else map[], true))
  }

  // ---------------------------------------------------------------- what a receipt remembers

  /** The tools the receipt remembers are the installed ones or none. */
  predicate ToolsAgree(r: Receipt) {
    r.before.Some? ==> Tools(r.before.value) == map[] || Tools(r.before.value) == Tools(r.installed)
  }

  /** A readable receipt remembers the launch the user chose, if that was a valid one. */
  ghost predicate ToolRemembers(s: ToolState, http: string -> bool) {
    var r := ParseReceipt(s.receipt, http);
    r.Some? ==>
      && ToolsAgree(r.value)
      && (ValidLaunch(s.chosen, http) ==>
            r.value.before.Some? && Launch(r.value.before.value) == Launch(s.chosen))
  }

  lemma ToolsOfNext(existing: Entry, d: Entry, previous: Option<Receipt>, http: string -> bool)
    requires d.Keys <= LaunchFields
    ensures var next := WithTools(existing, d, previous, http);
            Tools(Owned(next, true)) == ManagedTools(existing, previous, http) && Launch(Owned(next, true)) == d
  {
    var tools := ManagedTools(existing, previous, http);
    var extras := if Tools(existing) == EveryTool then Extras(existing) - {"tools"} else Extras(existing);
    assert "tools" !in LaunchFields;
    assert "tools" in extras ==> "tools" in existing;
    var next := extras + d + tools;
    assert Tools(next) == tools;
    assert Launch(next) == d;
    OwnedHas(next);
  }

  lemma OwnedHas(e: Entry)
    ensures Tools(Owned(e, true)) == Tools(e) && Launch(Owned(e, true)) == Launch(e)
  {
    assert "tools" !in LaunchFields;
  }

  lemma ReplacedTools(e: Entry, source: Entry)
    ensures Tools((e - {"tools"}) + Tools(source)) == Tools(source)
    ensures Launch((e - {"tools"}) + Tools(source)) == Launch(e)
  {
    assert "tools" !in LaunchFields;
  }

  /** An installation over an entry with the launch that the receipt knows. */
  lemma RefreshRemembers(s: ToolState, d: Entry, http: string -> bool)
    requires ToolRemembers(s, http) && d.Keys <= LaunchFields
    requires SameLaunch(Existing(s), ParseReceipt(s.receipt, http))
    ensures ToolRemembers(ToolStep(s, Install(d), http), http)
  {
    var e, r := Existing(s), ParseReceipt(s.receipt, http).value;
    ToolsOfNext(e, d, s.receipt, http);
    hide ValidLaunch, WithTools;
    var next := NextReceipt(e, WithTools(e, d, s.receipt, http), s.receipt, true, http);
    if ToolsChanged(e, r) {
      ReplacedTools(if r.before.Some? then r.before.value else Launch(e), e);
      hide Launch;
      assert Tools(next.before.value) == Tools(e);
    } else {
      hide Launch;
      assert next.before == r.before;
    }
  }

  lemma ManagedIsCurrent(e: Entry, previous: Option<Receipt>, http: string -> bool)
    requires e != map[]
    ensures ManagedTools(e, previous, http) == Tools(e)
  {
  }

  /** An installation over an entry that the installer did not write, or that the user changed. */
  lemma TakeOverRemembers(s: ToolState, d: Entry, http: string -> bool)
    requires d.Keys <= LaunchFields && !SameLaunch(Existing(s), ParseReceipt(s.receipt, http))
    ensures ToolRemembers(ToolStep(s, Install(d), http), http)
  {
    var e := Existing(s);
    ToolsOfNext(e, d, s.receipt, http);
    OwnedHas(e);
    NoneIsInvalid(http);
    hide ValidLaunch, WithTools, Launch;
    if ValidLaunch(Owned(e, true), http) {
      assert e != map[];
      ManagedIsCurrent(e, s.receipt, http);
    }
  }

  lemma {:induction false} EveryToolRunRemembers(s: ToolState, events: seq<Event>, http: string -> bool)
    requires ToolRemembers(s, http) && Definitions(events, http)
    ensures ToolRemembers(ToolRun(s, events, http), http)
    decreases |events|
  {
    if events != [] {
      if events[0].Install? {
        if SameLaunch(Existing(s), ParseReceipt(s.receipt, http)) {
          RefreshRemembers(s, events[0].definition, http);
        } else {
          TakeOverRemembers(s, events[0].definition, http);
        }
      }
      assert ToolRemembers(ToolStep(s, events[0], http), http);
      DefinitionsOn(events, http);
      hide ToolRemembers, ToolStep;
      EveryToolRunRemembers(ToolStep(s, events[0], http), events[1..], http);
    }
  }

  // ---------------------------------------------------------------- what uninstalling gives back

  /** The tools count as installed: the receipt has them as such and does not remember them. */
  predicate TakenOver(r: Receipt, now: Entry) {
    && "tools" in r.installed && Tools(now) == Tools(r.installed)
    && (r.before.Some? ==> "tools" !in r.before.value)
  }

  function LeftSettings(r: Receipt, now: Entry): Entry {
    if TakenOver(r, now) then Extras(now) - {"tools"} else Extras(now)
  }

  lemma ToolsInExtras(now: Entry)
    ensures Tools(Extras(now)) == Tools(now) && ("tools" in Extras(now) <==> "tools" in now)
  {
    assert "tools" !in LaunchFields;
  }

  /** What a receipt gives back for an entry with the installed launch. */
  lemma RemovedByReceipt(r: Receipt, now: Entry, http: string -> bool)
    requires ParseReceipt(Some(r), http).Some? && ToolsAgree(r) && Launch(now) == Launch(r.installed)
    ensures Removed(now, Some(r), http) ==
              if r.before.Some? then Some(Launch(r.before.value) + LeftSettings(r, now))
              else if LeftSettings(r, now) != map[] then Some(now) else None
  {
    ToolsInExtras(now);
    if r.before.Some? {
      assert r.before.value.Keys <= OwnedFields;
      hide ValidLaunch;
      ComposedOfParts(r.before.value, r.installed, now);
    }
  }

  lemma HasTools(e: Entry)
    ensures "tools" in e <==> Tools(e) != map[]
  {
    assert "tools" in e <==> "tools" in Tools(e);
    if "tools" !in e { assert Tools(e) == map[]; }
  }

  lemma ComposedOfParts(before: Entry, installed: Entry, now: Entry)
    requires before.Keys <= OwnedFields && (Tools(before) == map[] || Tools(before) == Tools(installed))
    ensures var r := Receipt(Some(before), installed);
            var kept := if ToolsChanged(now, r) then (before - {"tools"}) + Tools(now) else before;
            var extras := if "tools" in installed && "tools" !in kept && Tools(Extras(now)) == Tools(installed)
                          then Extras(now) - {"tools"} else Extras(now);
            kept + extras == Launch(before) + LeftSettings(r, now)
  {
    ToolsInExtras(now);
    HasTools(before);
    HasTools(installed);
    assert forall key :: key in before ==> key in LaunchFields || key == "tools";
  }

  lemma WithoutToolsDiffers(launch: Entry, now: Entry)
    requires "tools" in now && launch.Keys <= LaunchFields
    ensures launch + (Extras(now) - {"tools"}) != launch + Extras(now)
  {
    assert "tools" !in LaunchFields;
    assert "tools" in launch + Extras(now) && "tools" !in launch + (Extras(now) - {"tools"});
  }

  /**
    After any edits, installations and refreshes, uninstalling an entry with the installed launch gives a
    user who chose a valid launch that launch with all current other settings, if and only if the current
    tools do not count as installed.
  */
  lemma ToolUninstallGivesBack(original: Option<Entry>, events: seq<Event>, http: string -> bool)
    requires Definitions(events, http)
    requires var s := ToolRun(ToolBegin(original), events, http);
             && ParseReceipt(s.receipt, http).Some? && s.entry.Some?
             && Launch(s.entry.value) == Launch(s.receipt.value.installed) && ValidLaunch(s.chosen, http)
    ensures var s := ToolRun(ToolBegin(original), events, http);
            (Removed(s.entry.value, s.receipt, http) == Some(Launch(s.chosen) + Extras(s.entry.value))
             <==> !TakenOver(s.receipt.value, s.entry.value))
  {
    EveryToolRunRemembers(ToolBegin(original), events, http);
    hide ToolRun;
    GivenBackByReceipt(ToolRun(ToolBegin(original), events, http), http);
  }

  /** The same for every state whose receipt remembers what it should. */
  lemma GivenBackByReceipt(s: ToolState, http: string -> bool)
    requires ToolRemembers(s, http) && ParseReceipt(s.receipt, http).Some? && s.entry.Some?
    requires Launch(s.entry.value) == Launch(s.receipt.value.installed) && ValidLaunch(s.chosen, http)
    ensures Removed(s.entry.value, s.receipt, http) == Some(Launch(s.chosen) + Extras(s.entry.value))
       <==> !TakenOver(s.receipt.value, s.entry.value)
  {
    var r, now := s.receipt.value, s.entry.value;
    hide ValidLaunch, Launch, Extras, Removed;
    assert s.receipt == Some(r);
    RemovedByReceipt(r, now, http);
    if TakenOver(r, now) {
      HasTools(now);
      HasTools(r.installed);
      OwnedParts(s.chosen);
      WithoutToolsDiffers(Launch(s.chosen), now);
    }
  }

  /**
    The same for a user who chose no valid launch: a receipt that remembers nothing keeps the entry whole
    or, when only installed tools are left beside the launch, removes it; one that remembers a launch that
    the installer wrote gives that back.
  */
  lemma ToolUninstallWithoutChoice(original: Option<Entry>, events: seq<Event>, http: string -> bool)
    requires Definitions(events, http)
    requires var s := ToolRun(ToolBegin(original), events, http);
             && ParseReceipt(s.receipt, http).Some? && s.entry.Some?
             && Launch(s.entry.value) == Launch(s.receipt.value.installed) && !ValidLaunch(s.chosen, http)
    ensures var s := ToolRun(ToolBegin(original), events, http);
            var r, now := s.receipt.value, s.entry.value;
            Removed(now, s.receipt, http) ==
              if r.before.Some? then Some(Launch(r.before.value) + LeftSettings(r, now))
              else if LeftSettings(r, now) != map[] then Some(now) else None
  {
    EveryToolRunRemembers(ToolBegin(original), events, http);
    var s := ToolRun(ToolBegin(original), events, http);
    hide ToolRun, ValidLaunch, Launch, Extras, Removed;
    assert s.receipt == Some(s.receipt.value);
    RemovedByReceipt(s.receipt.value, s.entry.value, http);
  }

  // ---------------------------------------------------------------- tools that are lost

  /** The user's own launch, our definition, and tools that the user adds to it. */
  ghost predicate AddsTools(mine: Entry, d: Entry, tools: Entry, http: string -> bool) {
    && ValidLaunch(mine, http) && mine.Keys <= LaunchFields && IsDefinition(d, http)
    && tools.Keys == {"tools"} && tools["tools"].Texts? && tools != EveryTool
  }

  lemma LaunchOnly(e: Entry)
    requires e.Keys <= LaunchFields
    ensures Launch(e) == e && Tools(e) == map[] && Owned(e, true) == e && Extras(e) == map[] && "tools" !in e
  {
    assert "tools" !in LaunchFields;
    assert e + map[] == e;
  }

  lemma LaunchAndTools(d: Entry, tools: Entry)
    requires d.Keys <= LaunchFields && tools.Keys == {"tools"}
    ensures Launch(d + tools) == d && Tools(d + tools) == tools && Extras(d + tools) == tools
    ensures Owned(d + tools, true) == d + tools && "tools" in d + tools
  {
    assert "tools" !in LaunchFields;
  }

  lemma FirstInstall(mine: Entry, d: Entry, tools: Entry, http: string -> bool)
    requires AddsTools(mine, d, tools, http)
    ensures ToolStep(ToolBegin(Some(mine)), Install(d), http) == ToolState(Some(d), Some(Receipt(Some(mine), d)), mine)
  {
    LaunchOnly(mine);
    LaunchOnly(d);
    NoneIsInvalid(http);
    hide ValidLaunch, Launch, Tools, Extras, LaunchFields;
    ManagedIsCurrent(mine, None, http);
    assert map[] + d + map[] == d;
    assert Tools(mine) != EveryTool by { assert "tools" in EveryTool; }
    assert WithTools(mine, d, None, http) == d;
  }

  lemma Refreshed(mine: Entry, d: Entry, tools: Entry, http: string -> bool)
    requires AddsTools(mine, d, tools, http)
    ensures ToolStep(ToolState(Some(d + tools), Some(Receipt(Some(mine), d)), mine), Install(d), http)
         == ToolState(Some(d + tools), Some(Receipt(Some(mine), d + tools)), mine)
  {
    LaunchOnly(d);
    LaunchAndTools(d, tools);
    var receipt, e := Some(Receipt(Some(mine), d)), d + tools;
    assert ParseReceipt(receipt, http) == receipt;
    assert e != map[] by { assert "tools" in e; }
    hide ValidLaunch, Launch, Tools, Extras, LaunchFields;
    ManagedIsCurrent(e, receipt, http);
    assert tools + d + tools == e;
    assert WithTools(e, d, receipt, http) == e;
  }

  /**
    The user has a launch of their own, adds tools while ours is installed, and a refresh takes them for
    installed ones: uninstalling gives back the launch and loses the tools.
  */
  lemma RefreshTakesAddedTools(mine: Entry, d: Entry, tools: Entry, http: string -> bool)
    requires AddsTools(mine, d, tools, http)
    ensures var events := [Install(d), Edit(Some(d + tools)), Install(d)];
            var s := ToolRun(ToolBegin(Some(mine)), events, http);
            && Definitions(events, http) && s.entry == Some(d + tools) && s.chosen == mine
            && Launch(mine) + Extras(d + tools) == mine + tools
            && Removed(d + tools, s.receipt, http) == Some(mine) && mine != mine + tools
  {
    hide *;
    InstallsDefinition(mine, d, tools, http);
    AddingRun(mine, d, tools, http);
    LostAtUninstall(mine, d, tools, http);
  }

  lemma InstallsDefinition(mine: Entry, d: Entry, tools: Entry, http: string -> bool)
    requires AddsTools(mine, d, tools, http)
    ensures Definitions([Install(d), Edit(Some(d + tools)), Install(d)], http)
  {
    hide IsDefinition, ValidLaunch;
  }

  /** Where that run ends. */
  lemma AddingRun(mine: Entry, d: Entry, tools: Entry, http: string -> bool)
    requires AddsTools(mine, d, tools, http)
    ensures ToolRun(ToolBegin(Some(mine)), [Install(d), Edit(Some(d + tools)), Install(d)], http)
         == ToolState(Some(d + tools), Some(Receipt(Some(mine), d + tools)), mine)
  {
    FirstInstall(mine, d, tools, http);
    Refreshed(mine, d, tools, http);
    hide AddsTools, ToolBegin, WithTools, NextReceipt, SameLaunch, ToolRun;
    RunOfThree(ToolBegin(Some(mine)), Install(d), Edit(Some(d + tools)), Install(d), http);
  }

  lemma LostAtUninstall(mine: Entry, d: Entry, tools: Entry, http: string -> bool)
    requires AddsTools(mine, d, tools, http)
    ensures Removed(d + tools, Some(Receipt(Some(mine), d + tools)), http) == Some(mine)
    ensures Launch(mine) + Extras(d + tools) == mine + tools != mine
  {
    var r := Receipt(Some(mine), d + tools);
    LaunchOnly(mine);
    LaunchAndTools(d, tools);
    ValidWithTools(d, tools, http);
    assert ParseReceipt(Some(r), http) == Some(r);
    hide ValidLaunch, Launch, Tools, Extras, LaunchFields, Removed;
    RemovedByReceipt(r, d + tools, http);
    assert tools - {"tools"} == map[] && mine + map[] == mine;
    assert "tools" in mine + tools;
  }

  lemma RunOfThree(s: ToolState, a: Event, b: Event, c: Event, http: string -> bool)
    ensures ToolRun(s, [a, b, c], http) == ToolStep(ToolStep(ToolStep(s, a, http), b, http), c, http)
  {
    hide ToolStep;
    assert [a, b, c][1..] == [b, c] && [b, c][1..] == [c] && [c][1..] == [];
    var first := ToolStep(s, a, http);
    var second := ToolStep(first, b, http);
    var third := ToolStep(second, c, http);
    assert ToolRun(third, [], http) == third;
    assert ToolRun(second, [c], http) == third;
    assert ToolRun(first, [b, c], http) == third;
  }

  const Mine: Entry := map["command" := Text("mine")]
  const Search: Entry := map["tools" := Texts(["search"])]

  /** Such an input: the command `mine`, our command `serve`, and the tool `search`. */
  lemma SearchIsLost(http: string -> bool)
    ensures AddsTools(Mine, Definition, Search, http)
  {
    DefinitionIsValid(http);
    assert NonBlank("mine") by { assert "mine"[0] != ' ' && !('\t' <= "mine"[0] <= '\r'); }
    assert IsText(Mine, "command") && Mine["command"] == Text("mine");
    assert Search["tools"] == Texts(["search"]) && ["search"][0] != "*";
  }
}
