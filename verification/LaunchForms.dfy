/**
  What launch entries look like (src/installer/ownership.ts, src/installer/index.ts): a launch that an
  ownership receipt accepts is one that starts a command or names a remote server, and nothing else; and
  installing, over any refreshes, writes our definition beside the settings that the user has there.
*/
module LaunchForms {
  import opened Options
  import opened LaunchReceipts
  import opened ToolReceipts

  datatype Form =
    | Local(command: string, args: Option<seq<string>>, cwd: Option<string>, kind: Option<string>)
    | Remote(url: string, kind: Option<string>)

  function TextOf(text: Option<string>): Option<Json> {
    if text.Some? then Some(Text(text.value)) else None
  }

  function TextsOf(items: Option<seq<string>>): Option<Json> {
    if items.Some? then Some(Texts(items.value)) else None
  }

  function Field(f: Form, tools: Option<seq<string>>, key: string): Option<Json> {
    if key == "command" then if f.Local? then Some(Text(f.command)) else None
    else if key == "url" then if f.Remote? then Some(Text(f.url)) else None
    else if key == "args" then if f.Local? then TextsOf(f.args) else None
    else if key == "cwd" then if f.Local? then TextOf(f.cwd) else None
    else if key == "type" then TextOf(f.kind)
    else if key == "tools" then TextsOf(tools)
    else None
  }

  /** The entry with these fields. */
  function Written(f: Form, tools: Option<seq<string>>): Entry {
    map key | key in OwnedFields && Field(f, tools, key).Some? :: Field(f, tools, key).value
  }

  /** Nothing is blank, the type says the same, and a remote server is reached by http or https. */
  predicate WellFormed(f: Form, http: string -> bool) {
    match f
    case Local(command, _, cwd, kind) =>
      && NonBlank(command) && (cwd.Some? ==> NonBlank(cwd.value))
      && (kind.Some? ==> kind.value in {"local", "stdio"})
    case Remote(url, kind) =>
      NonBlank(url) && http(url) && (kind.Some? ==> kind.value in {"http", "sse"})
  }

  lemma KindIsNotBlank(kind: string)
    requires kind in {"local", "stdio", "http", "sse"}
    ensures NonBlank(kind)
  {
    assert kind[0] != ' ' && !('\t' <= kind[0] <= '\r');
  }

  lemma WrittenFields(f: Form, tools: Option<seq<string>>)
    ensures forall key :: Field(f, tools, key).Some? ==> key in OwnedFields
    ensures forall key :: key in Written(f, tools) <==> Field(f, tools, key).Some?
    ensures forall key :: key in Written(f, tools) ==> Written(f, tools)[key] == Field(f, tools, key).value
  {
  }

  lemma EachField(f: Form, tools: Option<seq<string>>)
    ensures Field(f, tools, "command") == if f.Local? then Some(Text(f.command)) else None
    ensures Field(f, tools, "url") == if f.Remote? then Some(Text(f.url)) else None
    ensures Field(f, tools, "args") == if f.Local? then TextsOf(f.args) else None
    ensures Field(f, tools, "cwd") == if f.Local? then TextOf(f.cwd) else None
    ensures Field(f, tools, "type") == TextOf(f.kind) && Field(f, tools, "tools") == TextsOf(tools)
  {
  }

  lemma WrittenIsValid(f: Form, tools: Option<seq<string>>, http: string -> bool)
    requires WellFormed(f, http)
    ensures ValidLaunch(Written(f, tools), http)
  {
    WrittenFields(f, tools);
    EachField(f, tools);
    if f.kind.Some? { KindIsNotBlank(f.kind.value); }
    hide NonBlank, Written, Field;
    if f.Local? {
      assert ValidLaunch(Written(f, tools), http);
    } else {
      assert ValidLaunch(Written(f, tools), http);
    }
  }

  function TextAt(e: Entry, key: string): Option<string> {
    if IsText(e, key) then Some(e[key].text) else None
  }

  function TextsAt(e: Entry, key: string): Option<seq<string>> {
    if key in e && e[key].Texts? then Some(e[key].items) else None
  }

  lemma ValidIsWritten(e: Entry, http: string -> bool) returns (f: Form, tools: Option<seq<string>>)
    requires ValidLaunch(e, http)
    ensures WellFormed(f, http) && e == Written(f, tools)
  {
    tools := TextsAt(e, "tools");
    f := if IsText(e, "command")
         then Local(e["command"].text, TextsAt(e, "args"), TextAt(e, "cwd"), TextAt(e, "type"))
         else Remote(e["url"].text, TextAt(e, "type"));
    hide NonBlank;
    WrittenFields(f, tools);
  }

  /** The accepted launches are exactly the well-formed ones. */
  lemma ValidLaunchExactly(e: Entry, http: string -> bool)
    ensures ValidLaunch(e, http) <==> exists f, tools :: WellFormed(f, http) && e == Written(f, tools)
  {
    if ValidLaunch(e, http) {
      var f, tools := ValidIsWritten(e, http);
    }
    forall f, tools | WellFormed(f, http) && e == Written(f, tools) ensures ValidLaunch(e, http) {
      WrittenIsValid(f, tools, http);
    }
  }

  // ---------------------------------------------------------------- what installing writes

  /** An installation and refreshes of it, with nothing in between. */
  predicate Installs(events: seq<Event>, http: string -> bool) {
    events != [] && forall i :: 0 <= i < |events| ==> events[i].Install? && IsDefinition(events[i].definition, http)
  }

  lemma InstallWrites(s: State, d: Entry, http: string -> bool)
    requires IsDefinition(d, http)
    ensures var next := Step(s, Install(d), http);
            next.entry == Some(Extras(Current(s)) + d) && Extras(Current(next)) == Extras(Current(s))
  {
    hide ValidLaunch, NextReceipt;
    LaunchOfDefinition(Current(s), d);
  }

  /** They leave the last definition beside the settings that were there. */
  lemma {:induction false} InstallsKeepSettings(s: State, events: seq<Event>, http: string -> bool)
    requires Installs(events, http)
    ensures Run(s, events, http).entry == Some(Extras(Current(s)) + events[|events| - 1].definition)
    decreases |events|
  {
    var first, rest, last := events[0], events[1..], events[|events| - 1];
    InstallsOn(events, http);
    RunOn(s, events, http);
    assert IsDefinition(first.definition, http) && first.Install?;
    assert rest != [] ==> rest[|rest| - 1] == last;
    hide *;
    InstallWrites(s, first.definition, http);
    if rest != [] {
      InstallsKeepSettings(Step(s, first, http), rest, http);
    }
  }

  lemma RunOn(s: State, events: seq<Event>, http: string -> bool)
    requires events != []
    ensures Run(s, events, http) == Run(Step(s, events[0], http), events[1..], http)
    ensures forall t :: Run(t, [], http) == t
  {
    hide Step;
  }

  lemma ToolRunOn(s: ToolState, events: seq<Event>, http: string -> bool)
    requires events != []
    ensures ToolRun(s, events, http) == ToolRun(ToolStep(s, events[0], http), events[1..], http)
    ensures forall t :: ToolRun(t, [], http) == t
  {
    hide ToolStep;
  }

  lemma InstallsOn(events: seq<Event>, http: string -> bool)
    requires Installs(events, http)
    ensures |events| > 1 ==> Installs(events[1..], http)
  {
    hide IsDefinition;
    forall i | 0 <= i < |events[1..]| ensures events[1..][i] == events[i + 1] {
    }
  }

  /**
    The tools that installing leaves: the user's own if there are any, otherwise all of them where nothing was
    and no receipt is readable, and otherwise none.
  */
  function SettledTools(s: ToolState, http: string -> bool): Entry {
    var e := Existing(s);
    if "tools" in e then map["tools" := e["tools"]]
    else if e == map[] && ParseReceipt(s.receipt, http).None? then map["tools" := Texts(["*"])]
    else map[]
  }

  /** What an installation that settles tools writes. */
  function Settled(s: ToolState, d: Entry, http: string -> bool): Entry {
    (Extras(Existing(s)) - {"tools"}) + d + SettledTools(s, http)
  }

  lemma InstallSettles(s: ToolState, d: Entry, http: string -> bool)
    requires IsDefinition(d, http)
    ensures ToolStep(s, Install(d), http).entry == Some(Settled(s, d, http))
  {
    hide ValidLaunch, NextReceipt, ParseReceipt;
    var e, tools := Existing(s), SettledTools(s, http);
    assert "tools" !in LaunchFields;
    assert Tools(e) == if "tools" in e then map["tools" := e["tools"]] else map[];
    if "tools" !in e {
      assert Tools(e) != EveryTool by { assert "tools" in EveryTool; }
      assert Extras(e) - {"tools"} == Extras(e);
    } else {
      assert Extras(e) + d + tools == (Extras(e) - {"tools"}) + d + tools;
    }
    assert ManagedTools(e, s.receipt, http) == tools;
  }

  lemma SettledAgain(s: ToolState, d: Entry, next: ToolState, again: Entry, http: string -> bool)
    requires IsDefinition(d, http) && IsDefinition(again, http) && next.entry == Some(Settled(s, d, http))
    ensures Settled(next, again, http) == Settled(s, again, http)
  {
    ValidIsNotEmpty(d, http);
    hide ValidLaunch, ParseReceipt;
    assert "tools" !in LaunchFields;
    var e, tools := Existing(s), SettledTools(s, http);
    var written := Settled(s, d, http);
    assert (Extras(e) - {"tools"}) + d != map[];
    assert written != map[] by {
      assert d != map[] by { assert d + map[] == d; }
      var key :| key in d;
      assert key in written;
    }
    assert Extras(written) - {"tools"} == Extras(e) - {"tools"};
    assert SettledTools(next, http) == tools;
  }

  /** The same for entries that own their tools: the tools of the first installation stay. */
  lemma {:induction false} InstallsSettleTools(s: ToolState, events: seq<Event>, http: string -> bool)
    requires Installs(events, http)
    ensures ToolRun(s, events, http).entry == Some(Settled(s, events[|events| - 1].definition, http))
    decreases |events|
  {
    var first, rest, last := events[0], events[1..], events[|events| - 1];
    var next := ToolStep(s, first, http);
    InstallsOn(events, http);
    ToolRunOn(s, events, http);
    assert IsDefinition(first.definition, http) && first.Install? && IsDefinition(last.definition, http);
    assert rest != [] ==> rest[|rest| - 1] == last;
    hide *;
    InstallSettles(s, first.definition, http);
    if rest != [] {
      InstallsSettleTools(next, rest, http);
      SettledAgain(s, first.definition, next, last.definition, http);
    }
  }
}
