/**
  Merging configuration layers (src/config/index.ts, src/runtime/sql-assistance.ts): the sections of a
  layer override those before it, setting by setting, and the provenance of a setting is the last layer
  that defines it. A missing key stands for `undefined`; an invalid SQL selector makes a merge fail.

  Settings are addressed by their path through nested sections. `MergeOverrides` says what a merge of two
  layers has at every path, `RunningMerge` that merging layer by layer is merging them at once, and
  `ProvenanceNamesTheDefiner` that provenance and value come from the same layer. The SQL options are
  normalised as they are merged, and a new dialect drops the version and the variant of the old one.
*/
module ConfigMerge {
  import opened Options

  datatype Key =
    | Version | Cli | Workspace | Telemetry | Safety | Files | Formatting | Dependencies | Intelligence | Http | Mcp
    | Output | Hook | Patch | Read | Sql | Federation | Generation | Retrieval | Embedding | Storage | Configuration
    | Policy | Dialect | Release | Variant
    | Setting(name: string)

  datatype Node = Leaf(value: string) | Section(fields: map<Key, Node>)

  type Fields = map<Key, Node>
  type Path = seq<Key>

  // ---------------------------------------------------------------- reading a configuration

  function Get(f: Fields, key: Key): Option<Node> {
    if key in f then Some(f[key]) else None
  }

  /** What spreading a value copies. */
  function Spread(n: Option<Node>): Fields {
    if n.Some? && n.value.Section? then n.value.fields else map[]
  }

  function Sub(f: Fields, key: Key): Fields {
    Spread(Get(f, key))
  }

  /** leaf. */
  function Look(f: Fields, path: Path): Option<Node>
    requires path != []
    decreases |path|
  {
    if |path| == 1 then Get(f, path[0]) else Look(Sub(f, path[0]), path[1..])
  }

  // ---------------------------------------------------------------- SQL selectors

  predicate Blank(c: char) {
    c == ' ' || '\t' <= c <= '\r'
  }

  function Trim(s: string): string {
    if s == [] then []
    else if Blank(s[0]) then Trim(s[1..])
    else if Blank(s[|s| - 1]) then Trim(s[..|s| - 1])
    else s
  }

  function LowerChar(c: char): char {
    if 'A' <= c <= 'Z' then c + ('a' - 'A') else c
  }

  function Lower(s: string): string {
    seq(|s|, i requires 0 <= i < |s| => LowerChar(s[i]))
  }

  predicate Letter(c: char) {
    'a' <= c <= 'z' || 'A' <= c <= 'Z'
  }

  predicate Alphanumeric(c: char) {
    Letter(c) || '0' <= c <= '9'
  }

  predicate IsName(s: string) {
    0 < |s| <= 128 && Letter(s[0]) && forall i :: 0 < i < |s| ==> Alphanumeric(s[i]) || s[i] == '_' || s[i] == '-'
  }

  predicate IsRelease(s: string) {
    && 0 < |s| <= 128 && Alphanumeric(s[0])
    && forall i :: 0 < i < |s| ==> Alphanumeric(s[i]) || s[i] == '_' || s[i] == '.' || s[i] == '+' || s[i] == '-'
  }

  predicate ValidSelector(value: Option<string>, release: bool) {
    value.Some? ==> if release then IsRelease(Trim(value.value)) else IsName(Trim(value.value))
  }

  /** selector, for a value that it accepts. */
  function Selector(value: Option<string>, release: bool): Option<string> {
    if value.None? then None else Some(if release then Trim(value.value) else Lower(Trim(value.value)))
  }

  lemma TrimKeeps(s: string)
    requires s != [] && !Blank(s[0]) && !Blank(s[|s| - 1])
    ensures Trim(s) == s
  {
  }

  /** Normalising a selector again changes nothing. */
  lemma SelectorIsStable(value: Option<string>, release: bool)
    requires ValidSelector(value, release)
    ensures ValidSelector(Selector(value, release), release)
    ensures Selector(Selector(value, release), release) == Selector(value, release)
  {
    if value.Some? {
      var t := Trim(value.value);
      var s := Selector(value, release).value;
      assert |s| == |t|;
      assert forall i :: 0 <= i < |t| ==> !Blank(t[i]) && !Blank(s[i]);
      TrimKeeps(s);
      if !release { assert Lower(s) == s; }
    }
  }

  predicate AllBlank(s: string) {
    forall i :: 0 <= i < |s| ==> Blank(s[i])
  }

  /** A text is blanks, the trimmed text and blanks, in one way only. */
  lemma {:induction false} TrimExactly(before: string, text: string, after: string)
    requires AllBlank(before) && AllBlank(after)
    requires text != [] ==> !Blank(text[0]) && !Blank(text[|text| - 1])
    ensures Trim(before + text + after) == text
    decreases |before| + |after|
  {
    var s := before + text + after;
    if before != [] {
      assert s[1..] == before[1..] + text + after;
      TrimExactly(before[1..], text, after);
    } else if text == [] && after != [] {
      assert s[1..] == [] + text + after[1..];
      TrimExactly([], text, after[1..]);
    } else if after != [] {
      assert s[0] == text[0] && s[|s| - 1] == after[|after| - 1];
      assert s[..|s| - 1] == [] + text + after[..|after| - 1];
      TrimExactly([], text, after[..|after| - 1]);
    } else {
      assert s == text;
    }
  }

  /** The two texts differ in the case of letters at most. */
  predicate SameButCase(a: string, b: string) {
    |a| == |b| && forall i :: 0 <= i < |a| ==>
      a[i] == b[i] || ('A' <= a[i] <= 'Z' && b[i] as int == a[i] as int + 32)
  }

  /**
    A name between any blanks is kept in lower case, and a release as it is; both are accepted exactly when
    the text between the blanks is.
  */
  lemma SelectorExactly(before: string, text: string, after: string, release: bool)
    requires AllBlank(before) && AllBlank(after)
    requires text != [] ==> !Blank(text[0]) && !Blank(text[|text| - 1])
    ensures ValidSelector(Some(before + text + after), release) <==> if release then IsRelease(text) else IsName(text)
    ensures var kept := Selector(Some(before + text + after), release).value;
            if release then kept == text
            else SameButCase(text, kept) && forall i :: 0 <= i < |kept| ==> !('A' <= kept[i] <= 'Z')
  {
    TrimExactly(before, text, after);
  }

  datatype SqlOptions = SqlOptions(
    policy: Option<string>, dialect: Option<string>, variant: Option<string>, release: Option<string>)

  function Either(first: Option<string>, second: Option<string>): Option<string> {
    if first.Some? then first else second
  }

  const Policies: set<string> := {"advisory", "required", "skip"}

  predicate ChangesDialect(incoming: SqlOptions, previous: SqlOptions) {
    incoming.dialect.Some? && Selector(incoming.dialect, false) != Selector(previous.dialect, false)
  }

  /** A layer changes the dialect exactly when it names one that differs in more than blanks and case. */
  lemma ChangesDialectExactly(
    incoming: SqlOptions, previous: SqlOptions, before: string, text: string, after: string)
    requires incoming.dialect == Some(before + text + after) && AllBlank(before) && AllBlank(after)
    requires text != [] ==> !Blank(text[0]) && !Blank(text[|text| - 1])
    requires ValidSelector(previous.dialect, false) && Selector(previous.dialect, false) == previous.dialect
    ensures ChangesDialect(incoming, previous)
       <==> previous.dialect.None? || !SameButCase(text, previous.dialect.value)
  {
    SelectorExactly(before, text, after, false);
    if previous.dialect.Some? {
      var kept, d := Selector(incoming.dialect, false).value, previous.dialect.value;
      assert d == Lower(Trim(d));
      assert forall i :: 0 <= i < |d| ==> !('A' <= d[i] <= 'Z');
      hide Trim, IsName, Lower;
      if SameButCase(text, d) { assert kept == d; }
    }
  }

  /** What resolveSqlAssistanceOptions keeps of an earlier release or variant. */
  function Kept(incoming: SqlOptions, previous: SqlOptions, value: Option<string>): Option<string> {
    if ChangesDialect(incoming, previous) then None else value
  }

  predicate ValidSql(incoming: SqlOptions, previous: SqlOptions) {
    && (Either(incoming.policy, previous.policy).Some? ==> Either(incoming.policy, previous.policy).value in Policies)
    && ValidSelector(Either(incoming.dialect, previous.dialect), false)
    && (incoming.dialect.Some? ==> ValidSelector(previous.dialect, false))
    && ValidSelector(Either(incoming.release, Kept(incoming, previous, previous.release)), true)
    && ValidSelector(Either(incoming.variant, Kept(incoming, previous, previous.variant)), false)
  }

  /** mergeSqlAssistanceDefaults; None when a value is rejected. */
  function MergeSql(incoming: SqlOptions, previous: SqlOptions): Option<SqlOptions> {
    if !ValidSql(incoming, previous) then None
    else
      Some(SqlOptions(
        Either(incoming.policy, previous.policy),
        Selector(Either(incoming.dialect, previous.dialect), false),
        Selector(Either(incoming.variant, Kept(incoming, previous, previous.variant)), false),
        Selector(Either(incoming.release, Kept(incoming, previous, previous.release)), true)))
  }

  function TextOf(f: Fields, key: Key): Option<string> {
    if key in f && f[key].Leaf? then Some(f[key].value) else None
  }

  function SqlOf(f: Fields): SqlOptions {
    SqlOptions(TextOf(f, Policy), TextOf(f, Dialect), TextOf(f, Variant), TextOf(f, Release))
  }

  function Entry(key: Key, value: Option<string>): Fields {
    if value.Some? then map[key := Leaf(value.value)] else map[]
  }

  /** The options as fields, without those that are undefined. */
  function SqlFields(o: SqlOptions): Fields {
    Entry(Policy, o.policy) + Entry(Dialect, o.dialect) + Entry(Variant, o.variant) + Entry(Release, o.release)
  }

  lemma SqlFieldsRoundTrip(o: SqlOptions)
    ensures SqlOf(SqlFields(o)) == o
  {
  }

  // ---------------------------------------------------------------- merging

  const MergeSections: seq<Key> :=
    [Cli, Workspace, Telemetry, Safety, Files, Formatting, Dependencies, Intelligence, Http, Mcp]

  function Both(a: Fields, b: Fields, key: Key): Node {
    Section(Sub(a, key) + Sub(b, key))
  }

  function MergeIntelligence(previous: Fields, incoming: Fields): Node {
    var a, b := Sub(previous, Retrieval), Sub(incoming, Retrieval);
    Section(map[
      Federation := Both(previous, incoming, Federation),
      Generation := Both(previous, incoming, Generation),
      Retrieval := Section((a + b)[Embedding := Both(a, b, Embedding)]),
      Storage := Both(previous, incoming, Storage)])
  }

  function IncomingSql(incoming: Fields): SqlOptions {
    SqlOf(Sub(Sub(incoming, Patch), Sql))
  }

  /** mergeFileMethods, once the SQL options are merged. */
  function MergeFiles(previous: Fields, incoming: Fields, sql: SqlOptions): Node {
    Section(map[
      Patch := Section((Sub(previous, Patch) + Sub(incoming, Patch))[Sql := Section(SqlFields(sql))]),
      Read := Both(previous, incoming, Read)])
  }

  /** The new value of a section that the layer has; None when its SQL options are rejected. */
  function MergedSection(section: Key, previous: Fields, incoming: Fields): Option<Node> {
    match section
    case Cli => Some(Section(map[Output := Both(previous, incoming, Output)]))
    case Safety =>
      Some(Section(if Hook in incoming then (previous + incoming)[Hook := Both(previous, incoming, Hook)]
                   else previous + incoming))
    case Files =>
      (match MergeSql(IncomingSql(incoming), IncomingSql(previous))
       case None => None
       case Some(sql) => Some(MergeFiles(previous, incoming, sql)))
    case Intelligence => Some(MergeIntelligence(previous, incoming))
    case Mcp =>
      Some(Section(if Configuration in incoming then map[Configuration := Both(previous, incoming, Configuration)]
                   else previous + incoming))
    case _ => Some(Section(previous + incoming))
  }

  /** mergeSection. */
  function MergeSection(result: Fields, layer: Fields, section: Key): Option<Fields> {
    if section !in layer then Some(result)
    else
      match MergedSection(section, Sub(result, section), Sub(layer, section))
      case None => None
      case Some(node) => Some(result[section := node])
  }

  function MergeEach(result: Fields, layer: Fields, sections: seq<Key>): Option<Fields>
    decreases |sections|
  {
    if sections == [] then Some(result)
    else
      match MergeSection(result, layer, sections[0])
      case None => None
      case Some(next) => MergeEach(next, layer, sections[1..])
  }

  function WithVersion(result: Fields, layer: Fields): Fields {
    if Version in layer then result[Version := layer[Version]] else result
  }

  /** One pass of the loop of `merge`. */
  function MergeLayer(result: Fields, layer: Fields): Option<Fields> {
    MergeEach(WithVersion(result, layer), layer, MergeSections)
  }

  /** merge(...layers). */
  function MergeAll(layers: seq<Fields>): Option<Fields>
    decreases |layers|
  {
    if layers == [] then Some(map[])
    else
      match MergeAll(layers[..|layers| - 1])
      case None => None
      case Some(result) => MergeLayer(result, layers[|layers| - 1])
  }

  // ---------------------------------------------------------------- what a merge does to one section

  /** The part of the result that a merge computes for one section. */
  function MergedAt(result: Fields, layer: Fields, section: Key): Option<Node> {
    if section in layer then MergedSection(section, Sub(result, section), Sub(layer, section)) else Get(result, section)
  }

  predicate Distinct(sections: seq<Key>) {
    forall i, j :: 0 <= i < j < |sections| ==> sections[i] != sections[j]
  }

  lemma SectionIsPointwise(result: Fields, layer: Fields, section: Key, key: Key)
    requires MergeSection(result, layer, section).Some?
    ensures Get(MergeSection(result, layer, section).value, key)
         == if key == section then MergedAt(result, layer, section) else Get(result, key)
  {
    hide MergedSection;
  }

  lemma {:induction false} EachIsPointwise(result: Fields, layer: Fields, sections: seq<Key>, key: Key)
    requires Distinct(sections) && MergeEach(result, layer, sections).Some?
    ensures Get(MergeEach(result, layer, sections).value, key)
         == if key in sections then MergedAt(result, layer, key) else Get(result, key)
    decreases |sections|
  {
    if sections != [] {
      hide MergedSection, MergeSection;
      var section := sections[0];
      var next := MergeSection(result, layer, section).value;
      SectionIsPointwise(result, layer, section, key);
      EachIsPointwise(next, layer, sections[1..], key);
      assert section !in sections[1..];
      if key == section {
        assert key !in sections[1..];
      } else {
        assert key in sections <==> key in sections[1..];
        assert Sub(next, key) == Sub(result, key);
      }
    }
  }

  predicate IsSection(key: Key) {
    key.Cli? || key.Workspace? || key.Telemetry? || key.Safety? || key.Files? || key.Formatting? || key.Dependencies?
    || key.Intelligence? || key.Http? || key.Mcp?
  }

  lemma SectionsAre()
    ensures forall key :: key in MergeSections <==> IsSection(key)
    ensures Distinct(MergeSections)
  {
  }

  lemma {:induction false} EachMerges(result: Fields, layer: Fields, sections: seq<Key>, key: Key)
    requires Distinct(sections) && MergeEach(result, layer, sections).Some? && key in sections && key in layer
    ensures MergedSection(key, Sub(result, key), Sub(layer, key)).Some?
    decreases |sections|
  {
    hide MergedSection;
    if key != sections[0] {
      SectionIsPointwise(result, layer, sections[0], key);
      EachMerges(MergeSection(result, layer, sections[0]).value, layer, sections[1..], key);
    }
  }

  lemma SectionMerges(result: Fields, layer: Fields, key: Key)
    requires MergeLayer(result, layer).Some? && IsSection(key) && key in layer
    ensures MergedSection(key, Sub(result, key), Sub(layer, key)).Some?
  {
    hide MergedSection, MergeEach, WithVersion;
    SectionsAre();
    EachMerges(WithVersion(result, layer), layer, MergeSections, key);
    MergeStart(result, layer, key);
  }

  lemma MergeStart(result: Fields, layer: Fields, key: Key)
    ensures key != Version ==> Get(WithVersion(result, layer), key) == Get(result, key)
    ensures Get(WithVersion(result, layer), Version)
         == if Version in layer then Some(layer[Version]) else Get(result, Version)
  {
  }

  /** A merge computes every section on its own. */
  lemma MergeIsPointwise(result: Fields, layer: Fields, key: Key)
    requires MergeLayer(result, layer).Some?
    ensures Get(MergeLayer(result, layer).value, key)
         == if IsSection(key) then MergedAt(result, layer, key)
            else if key == Version && Version in layer then Some(layer[Version])
            else Get(result, key)
  {
    hide MergedSection, MergeEach, WithVersion;
    var start := WithVersion(result, layer);
    SectionsAre();
    EachIsPointwise(start, layer, MergeSections, key);
    MergeStart(result, layer, key);
  }

  // ---------------------------------------------------------------- settings

  predicate IsGroup(section: Key, group: Key, k: Key) {
    match section
    case Cli => group == Output
    case Safety => group == Hook
    case Files => group == Read || (group == Patch && k != Sql)
    case Intelligence => group in {Federation, Generation, Storage} || (group == Retrieval && k != Embedding)
    case Mcp => group == Configuration
    case _ => false
  }

  /** The path of a setting that one layer simply takes from another. */
  predicate PlainPath(p: Path) {
    || p == [Version]
    || (|p| == 2
        && (p[0] in {Workspace, Telemetry, Formatting, Dependencies, Http} || (p[0] == Safety && p[1] != Hook)))
    || (|p| == 3 && IsGroup(p[0], p[1], p[2]))
    || (|p| == 4 && p[..3] == [Intelligence, Retrieval, Embedding])
  }

  function OrElse(first: Option<Node>, second: Option<Node>): Option<Node> {
    if first.Some? then first else second
  }

  lemma LookOne(f: Fields, p: Path)
    requires |p| == 1
    ensures Look(f, p) == Get(f, p[0])
  {
  }

  lemma LookBelow(f: Fields, p: Path)
    requires |p| > 1
    ensures Look(f, p) == Look(Sub(f, p[0]), p[1..])
  {
  }

  lemma LookTwo(f: Fields, p: Path)
    requires |p| == 2
    ensures Look(f, p) == Get(Sub(f, p[0]), p[1])
  {
  }

  lemma LookThree(f: Fields, p: Path)
    requires |p| == 3
    ensures Look(f, p) == Get(Sub(Sub(f, p[0]), p[1]), p[2])
  {
    LookBelow(f, p);
    LookTwo(Sub(f, p[0]), p[1..]);
  }

  lemma GetOfBoth(a: Fields, b: Fields, key: Key, k: Key)
    ensures Get(Both(a, b, key).fields, k) == OrElse(Get(Sub(b, key), k), Get(Sub(a, key), k))
  {
  }

  /** A setting directly in a section. */
  lemma MergedInSection(section: Key, previous: Fields, incoming: Fields, k: Key)
    requires section in {Workspace, Telemetry, Formatting, Dependencies, Http} || (section == Safety && k != Hook)
    ensures var node := MergedSection(section, previous, incoming).value;
            MergedSection(section, previous, incoming).Some? && node.Section?
            && Get(node.fields, k) == OrElse(Get(incoming, k), Get(previous, k))
  {
  }

  /** The setting k of a group is that of the incoming section, or else that of the previous one. */
  predicate GroupOverrides(node: Option<Node>, previous: Fields, incoming: Fields, group: Key, k: Key) {
    && node.Some? && node.value.Section?
    && Get(Sub(node.value.fields, group), k) == OrElse(Get(Sub(incoming, group), k), Get(Sub(previous, group), k))
  }

  lemma GroupOfCli(previous: Fields, incoming: Fields, k: Key)
    ensures GroupOverrides(MergedSection(Cli, previous, incoming), previous, incoming, Output, k)
  {
  }

  lemma GroupOfSafety(previous: Fields, incoming: Fields, k: Key)
    ensures GroupOverrides(MergedSection(Safety, previous, incoming), previous, incoming, Hook, k)
  {
  }

  lemma GroupOfMcp(previous: Fields, incoming: Fields, k: Key)
    ensures GroupOverrides(MergedSection(Mcp, previous, incoming), previous, incoming, Configuration, k)
  {
  }

  lemma GroupOfIntelligence(previous: Fields, incoming: Fields, group: Key, k: Key)
    requires group in {Federation, Generation, Storage} || (group == Retrieval && k != Embedding)
    ensures GroupOverrides(Some(MergeIntelligence(previous, incoming)), previous, incoming, group, k)
  {
  }

  lemma GroupOfFiles(previous: Fields, incoming: Fields, sql: SqlOptions, group: Key, k: Key)
    requires group == Read || (group == Patch && k != Sql)
    ensures GroupOverrides(Some(MergeFiles(previous, incoming, sql)), previous, incoming, group, k)
  {
  }

  lemma MergedFiles(previous: Fields, incoming: Fields)
    requires MergedSection(Files, previous, incoming).Some?
    ensures MergeSql(IncomingSql(incoming), IncomingSql(previous)).Some?
    ensures MergedSection(Files, previous, incoming).value
         == MergeFiles(previous, incoming, MergeSql(IncomingSql(incoming), IncomingSql(previous)).value)
  {
    hide MergeSql, MergeFiles, IncomingSql;
  }

  lemma MergedGroups(previous: Fields, incoming: Fields)
    ensures MergedSection(Intelligence, previous, incoming) == Some(MergeIntelligence(previous, incoming))
  {
  }

  /** A setting in a group of a section. */
  lemma MergedInGroup(section: Key, previous: Fields, incoming: Fields, group: Key, k: Key)
    requires MergedSection(section, previous, incoming).Some? && IsGroup(section, group, k)
    ensures GroupOverrides(MergedSection(section, previous, incoming), previous, incoming, group, k)
  {
    hide MergedSection, GroupOverrides, MergeSql, IncomingSql, MergeFiles, MergeIntelligence;
    match section
    case Cli => GroupOfCli(previous, incoming, k);
    case Safety => GroupOfSafety(previous, incoming, k);
    case Files =>
      MergedFiles(previous, incoming);
      GroupOfFiles(previous, incoming, MergeSql(IncomingSql(incoming), IncomingSql(previous)).value, group, k);
    case Intelligence =>
      MergedGroups(previous, incoming);
      GroupOfIntelligence(previous, incoming, group, k);
    case Mcp => GroupOfMcp(previous, incoming, k);
  }

  lemma MergedEmbedding(previous: Fields, incoming: Fields, k: Key)
    ensures Get(Sub(Sub(MergeIntelligence(previous, incoming).fields, Retrieval), Embedding), k)
         == OrElse(Get(Sub(Sub(incoming, Retrieval), Embedding), k), Get(Sub(Sub(previous, Retrieval), Embedding), k))
  {
    GetOfBoth(Sub(previous, Retrieval), Sub(incoming, Retrieval), Embedding, k);
  }

  /** A setting below a section that was merged. */
  lemma MergedBelow(section: Key, previous: Fields, incoming: Fields, rest: Path)
    requires MergedSection(section, previous, incoming).Some? && rest != [] && PlainPath([section] + rest)
    requires section != Version
    ensures var node := MergedSection(section, previous, incoming).value;
            node.Section? && Look(node.fields, rest) == OrElse(Look(incoming, rest), Look(previous, rest))
  {
    var fields := Spread(MergedSection(section, previous, incoming));
    var p := [section] + rest;
    if |rest| == 1 {
      assert p[1] == rest[0];
      MergedInSection(section, previous, incoming, rest[0]);
      LookOne(fields, rest);
      LookOne(incoming, rest);
      LookOne(previous, rest);
    } else if |rest| == 2 {
      assert p == [section, rest[0], rest[1]];
      MergedInGroup(section, previous, incoming, rest[0], rest[1]);
      LookTwo(fields, rest);
      LookTwo(incoming, rest);
      LookTwo(previous, rest);
    } else {
      assert p[..3] == [section, rest[0], rest[1]];
      MergedEmbedding(previous, incoming, rest[2]);
      LookThree(fields, rest);
      LookThree(incoming, rest);
      LookThree(previous, rest);
    }
  }

  lemma PlainIsBelow(p: Path)
    requires PlainPath(p) && p[0] != Version
    ensures |p| > 1 && IsSection(p[0])
  {
    assert |p| == 4 ==> p[..3][0] == Intelligence && p[0] == p[..3][0];
  }

  lemma MergedSetting(result: Fields, layer: Fields, p: Path)
    requires MergeLayer(result, layer).Some? && PlainPath(p) && p[0] != Version && p[0] in layer
    ensures Look(MergeLayer(result, layer).value, p) == OrElse(Look(layer, p), Look(result, p))
  {
    PlainIsBelow(p);
    hide MergeLayer, MergedSection, Look, PlainPath, IsSection;
    var merged := MergeLayer(result, layer).value;
    var section, rest := p[0], p[1..];
    assert [section] + rest == p;
    MergeIsPointwise(result, layer, section);
    SectionMerges(result, layer, section);
    MergedBelow(section, Sub(result, section), Sub(layer, section), rest);
    LookBelow(merged, p);
    LookBelow(layer, p);
    LookBelow(result, p);
  }

  lemma VersionOverrides(result: Fields, layer: Fields)
    requires MergeLayer(result, layer).Some?
    ensures var p := [Version];
            Look(MergeLayer(result, layer).value, p) == OrElse(Look(layer, p), Look(result, p))
  {
    MergeIsPointwise(result, layer, Version);
    LookOne(layer, [Version]);
    LookOne(result, [Version]);
    LookOne(MergeLayer(result, layer).value, [Version]);
    hide MergeLayer, Look;
  }

  lemma AbsentOverridesNothing(result: Fields, layer: Fields, p: Path)
    requires MergeLayer(result, layer).Some? && p != [] && p[0] != Version && p[0] !in layer
    ensures Look(MergeLayer(result, layer).value, p) == OrElse(Look(layer, p), Look(result, p))
  {
    MergeIsPointwise(result, layer, p[0]);
    hide MergeLayer, MergedSection, Look;
    LookOnlyBelow(MergeLayer(result, layer).value, result, p);
    LookNothing(layer, p);
  }

  /** A layer that defines a setting overrides it; any other layer leaves it alone. */
  lemma MergeOverrides(result: Fields, layer: Fields, p: Path)
    requires MergeLayer(result, layer).Some? && PlainPath(p)
    ensures Look(MergeLayer(result, layer).value, p) == OrElse(Look(layer, p), Look(result, p))
  {
    hide *;
    VersionStandsAlone(p);
    if p[0] == Version {
      VersionOverrides(result, layer);
    } else if p[0] in layer {
      MergedSetting(result, layer, p);
    } else {
      AbsentOverridesNothing(result, layer, p);
    }
  }

  lemma VersionStandsAlone(p: Path)
    requires PlainPath(p)
    ensures p != [] && (p[0] == Version ==> p == [Version])
  {
  }

  lemma LookOnlyBelow(a: Fields, b: Fields, p: Path)
    requires p != [] && Get(a, p[0]) == Get(b, p[0])
    ensures Look(a, p) == Look(b, p)
  {
  }

  lemma {:induction false} LookNothing(f: Fields, p: Path)
    requires p != [] && p[0] !in f
    ensures Look(f, p).None?
    decreases |p|
  {
    if |p| > 1 {
      assert Sub(f, p[0]) == map[];
      LookNothing(map[], p[1..]);
    }
  }

  // ---------------------------------------------------------------- SQL settings

  function SqlAt(f: Fields): SqlOptions {
    IncomingSql(Sub(f, Files))
  }

  lemma SqlOfFiles(previous: Fields, incoming: Fields, sql: SqlOptions)
    ensures IncomingSql(MergeFiles(previous, incoming, sql).fields) == sql
  {
    SqlFieldsRoundTrip(sql);
    hide SqlFields, SqlOf;
    assert Sub(Sub(MergeFiles(previous, incoming, sql).fields, Patch), Sql) == SqlFields(sql);
  }

  /** The SQL options of a merge: merged when the layer has a files section, and as they were otherwise. */
  lemma MergeSqlAt(result: Fields, layer: Fields)
    requires MergeLayer(result, layer).Some?
    ensures if Files in layer
            then MergeSql(SqlAt(layer), SqlAt(result)) == Some(SqlAt(MergeLayer(result, layer).value))
            else SqlAt(MergeLayer(result, layer).value) == SqlAt(result)
  {
    hide MergeLayer, MergedSection, MergeSql, MergeFiles, IncomingSql;
    MergeIsPointwise(result, layer, Files);
    if Files in layer {
      SectionMerges(result, layer, Files);
      MergedFiles(Sub(result, Files), Sub(layer, Files));
      var sql := MergeSql(SqlAt(layer), SqlAt(result)).value;
      FilesAreSection(Sub(result, Files), Sub(layer, Files), sql);
      SqlOfFiles(Sub(result, Files), Sub(layer, Files), sql);
    }
  }

  // ---------------------------------------------------------------- merging again

  /** A section that merging into nothing reproduces. */
  predicate Stable(section: Key, fields: Fields) {
    MergedSection(section, map[], fields) == Some(Section(fields))
  }

  lemma MergedSqlIsStable(incoming: SqlOptions, previous: SqlOptions)
    requires MergeSql(incoming, previous).Some?
    ensures var sql := MergeSql(incoming, previous).value;
            MergeSql(sql, SqlOptions(None, None, None, None)) == Some(sql)
  {
    SelectorIsStable(Either(incoming.dialect, previous.dialect), false);
    SelectorIsStable(Either(incoming.variant, Kept(incoming, previous, previous.variant)), false);
    SelectorIsStable(Either(incoming.release, Kept(incoming, previous, previous.release)), true);
    hide Selector, ValidSelector;
    var nothing: Option<string> := None;
    assert ValidSelector(nothing, false) by { NothingIsValid(); }
  }

  lemma NothingIsValid()
    ensures ValidSelector(None, false) && Selector(None, false) == None
  {
  }

  predicate OnlyConfiguration(fields: Fields) {
    fields.Keys <= {Configuration}
  }

  /** Whatever a section is merged from, merging it again into nothing gives the same section. */
  lemma MergedIsStable(section: Key, previous: Fields, incoming: Fields)
    requires MergedSection(section, previous, incoming).Some?
    requires previous == map[] || Stable(section, previous)
    requires section == Mcp ==> OnlyConfiguration(previous) && OnlyConfiguration(incoming)
    ensures MergedSection(section, previous, incoming).value.Section?
    ensures Stable(section, MergedSection(section, previous, incoming).value.fields)
    ensures section == Mcp ==> OnlyConfiguration(MergedSection(section, previous, incoming).value.fields)
  {
    match section
    case Cli => CliIsStable(previous, incoming);
    case Safety => SafetyIsStable(previous, incoming);
    case Files => FilesIsStable(previous, incoming);
    case Intelligence => IntelligenceIsStable(previous, incoming);
    case Mcp => McpIsStable(previous, incoming);
    case _ => assert map[] + (previous + incoming) == previous + incoming;
  }

  lemma CliIsStable(previous: Fields, incoming: Fields)
    ensures Stable(Cli, MergedSection(Cli, previous, incoming).value.fields)
  {
    var output := Sub(previous, Output) + Sub(incoming, Output);
    assert map[] + output == output;
  }

  lemma SafetyIsStable(previous: Fields, incoming: Fields)
    requires previous == map[] || Stable(Safety, previous)
    ensures Stable(Safety, MergedSection(Safety, previous, incoming).value.fields)
  {
    var fields := MergedSection(Safety, previous, incoming).value.fields;
    assert map[] + fields == fields;
    if Hook in fields {
      if Hook !in incoming { assert previous[Hook] == Both(map[], previous, Hook); }
      assert fields[Hook].Section?;
      assert Both(map[], fields, Hook) == fields[Hook] by { assert map[] + fields[Hook].fields == fields[Hook].fields; }
      assert fields[Hook := fields[Hook]] == fields;
    }
  }

  lemma FilesAgain(previous: Fields, incoming: Fields, sql: SqlOptions)
    ensures var fields := MergeFiles(previous, incoming, sql).fields;
            MergeFiles(map[], fields, sql) == Section(fields)
  {
    hide SqlFields;
    var fields := MergeFiles(previous, incoming, sql).fields;
    var patch, read := Sub(fields, Patch), Sub(fields, Read);
    assert map[] + patch == patch && patch[Sql := Section(SqlFields(sql))] == patch;
    assert map[] + read == read;
    assert MergeFiles(map[], fields, sql).fields == fields;
  }

  lemma NoSql()
    ensures IncomingSql(map[]) == SqlOptions(None, None, None, None)
  {
    assert Sub(Sub(map[], Patch), Sql) == map[];
  }

  lemma FilesIsStable(previous: Fields, incoming: Fields)
    requires MergedSection(Files, previous, incoming).Some?
    ensures MergedSection(Files, previous, incoming).value.Section?
    ensures Stable(Files, MergedSection(Files, previous, incoming).value.fields)
  {
    MergedFiles(previous, incoming);
    hide MergeSql, MergeFiles, IncomingSql;
    var sql := MergeSql(IncomingSql(incoming), IncomingSql(previous)).value;
    FilesAreSection(previous, incoming, sql);
    MergedSqlIsStable(IncomingSql(incoming), IncomingSql(previous));
    SqlOfFiles(previous, incoming, sql);
    NoSql();
    FilesAgain(previous, incoming, sql);
  }

  lemma FilesAreSection(previous: Fields, incoming: Fields, sql: SqlOptions)
    ensures MergeFiles(previous, incoming, sql).Section?
  {
  }

  lemma BothAgain(previous: Fields, incoming: Fields, fields: Fields, key: Key)
    requires key in fields && fields[key] == Both(previous, incoming, key)
    ensures Both(map[], fields, key) == fields[key]
  {
    assert Sub(map[], key) == map[];
    assert map[] + Sub(fields, key) == Sub(fields, key);
  }

  lemma IntelligenceIsStable(previous: Fields, incoming: Fields)
    ensures Stable(Intelligence, MergedSection(Intelligence, previous, incoming).value.fields)
  {
    var fields := MergeIntelligence(previous, incoming).fields;
    var a, b := Sub(previous, Retrieval), Sub(incoming, Retrieval);
    var retrieval := Sub(fields, Retrieval);
    assert fields[Federation] == Both(previous, incoming, Federation);
    assert fields[Generation] == Both(previous, incoming, Generation);
    assert fields[Storage] == Both(previous, incoming, Storage) && retrieval[Embedding] == Both(a, b, Embedding);
    hide Both;
    BothAgain(previous, incoming, fields, Federation);
    BothAgain(previous, incoming, fields, Generation);
    BothAgain(previous, incoming, fields, Storage);
    BothAgain(a, b, retrieval, Embedding);
    assert Sub(map[], Retrieval) == map[] && map[] + retrieval == retrieval;
    assert retrieval[Embedding := Both(map[], retrieval, Embedding)] == retrieval;
    assert MergeIntelligence(map[], fields).fields == fields;
  }

  lemma McpIsStable(previous: Fields, incoming: Fields)
    requires OnlyConfiguration(previous) && OnlyConfiguration(incoming)
    requires previous == map[] || Stable(Mcp, previous)
    ensures Stable(Mcp, MergedSection(Mcp, previous, incoming).value.fields)
    ensures OnlyConfiguration(MergedSection(Mcp, previous, incoming).value.fields)
  {
    var fields := MergedSection(Mcp, previous, incoming).value.fields;
    if Configuration in incoming {
      var configuration := Sub(fields, Configuration);
      assert map[] + configuration == configuration;
      assert map[Configuration := Both(map[], fields, Configuration)] == fields;
    } else {
      assert incoming == map[] && previous + incoming == previous && fields == previous;
      assert map[] + fields == fields;
    }
  }

  /** A configuration that merging into an empty one reproduces, section by section. */
  ghost predicate Effective(f: Fields) {
    && (forall key :: key in f ==> key == Version || IsSection(key))
    && (forall key :: key in f && IsSection(key) ==> f[key].Section? && Stable(key, f[key].fields))
    && OnlyConfiguration(Sub(f, Mcp))
  }

  lemma MergeStaysEffective(result: Fields, layer: Fields)
    requires MergeLayer(result, layer).Some? && Effective(result) && OnlyConfiguration(Sub(layer, Mcp))
    ensures Effective(MergeLayer(result, layer).value)
  {
    var merged := MergeLayer(result, layer).value;
    hide MergeLayer, MergedSection, Stable;
    forall key ensures key in merged ==> key == Version || IsSection(key) {
      MergeIsPointwise(result, layer, key);
    }
    forall key | IsSection(key)
      ensures key in merged ==> merged[key].Section? && Stable(key, merged[key].fields)
      ensures key == Mcp ==> OnlyConfiguration(Sub(merged, Mcp))
    {
      MergeIsPointwise(result, layer, key);
      if key in layer {
        SectionMerges(result, layer, key);
        MergedIsStable(key, Sub(result, key), Sub(layer, key));
      }
    }
  }

  lemma {:induction false} EachSucceeds(result: Fields, layer: Fields, sections: seq<Key>)
    requires Distinct(sections)
    requires forall key :: key in sections && key in layer ==>
               MergedSection(key, Sub(result, key), Sub(layer, key)).Some?
    ensures MergeEach(result, layer, sections).Some?
    decreases |sections|
  {
    if sections != [] {
      hide MergedSection;
      var next := MergeSection(result, layer, sections[0]).value;
      forall key | key in sections[1..] && key in layer
        ensures MergedSection(key, Sub(next, key), Sub(layer, key)).Some?
      {
        SectionIsPointwise(result, layer, sections[0], key);
        assert Sub(next, key) == Sub(result, key);
      }
      EachSucceeds(next, layer, sections[1..]);
    }
  }

  lemma RemergeSucceeds(f: Fields)
    requires Effective(f)
    ensures MergeLayer(map[], f).Some?
  {
    hide MergedSection, Stable;
    var start := WithVersion(map[], f);
    SectionsAre();
    forall key | IsSection(key) && key in f ensures MergedSection(key, Sub(start, key), Sub(f, key)).Some? {
      StableMerges(key, f[key].fields);
      assert Sub(start, key) == map[];
    }
    EachSucceeds(start, f, MergeSections);
  }

  lemma StableMerges(section: Key, fields: Fields)
    requires Stable(section, fields)
    ensures MergedSection(section, map[], fields) == Some(Section(fields))
  {
  }

  /** Merging an effective configuration into an empty one changes nothing. */
  lemma RemergeIsIdentity(f: Fields)
    requires Effective(f)
    ensures MergeLayer(map[], f) == Some(f)
  {
    RemergeSucceeds(f);
    hide MergedSection, Stable, MergeLayer;
    var merged := MergeLayer(map[], f).value;
    forall key ensures Get(merged, key) == Get(f, key) {
      MergeIsPointwise(map[], f, key);
      if key in f && IsSection(key) {
        StableMerges(key, f[key].fields);
        assert Sub(map[], key) == map[];
      }
    }
    SameFields(merged, f);
  }

  lemma SameFields(a: Fields, b: Fields)
    requires forall key :: Get(a, key) == Get(b, key)
    ensures a == b
  {
    forall key ensures key in a <==> key in b { assert Get(a, key) == Get(b, key); }
    forall key | key in a ensures a[key] == b[key] { assert Get(a, key) == Get(b, key); }
  }

  // ---------------------------------------------------------------- one setting through one merge

  predicate SqlPath(p: Path) {
    p in {
      [Files, Patch, Sql, Policy], [Files, Patch, Sql, Dialect], [Files, Patch, Sql, Variant],
      [Files, Patch, Sql, Release]}
  }

  function SqlSettings(f: Fields): Fields {
    Sub(Sub(Sub(f, Files), Patch), Sql)
  }

  /** What a layer has to look like: SQL options are texts, and the MCP section has one group. */
  ghost predicate Shaped(layer: Fields) {
    && OnlyConfiguration(Sub(layer, Mcp))
    && forall k :: k in SqlSettings(layer) ==> SqlSettings(layer)[k].Leaf?
  }

  function OptionAt(o: SqlOptions, k: Key): Option<string> {
    if k == Policy then o.policy else if k == Dialect then o.dialect else if k == Variant then o.variant else o.release
  }

  function AsLeaf(value: Option<string>): Option<Node> {
    if value.Some? then Some(Leaf(value.value)) else None
  }

  /** A value as a merge keeps it: SQL selectors are trimmed, and all but releases lower-cased. */
  function Normal(p: Path, n: Option<Node>): Option<Node> {
    if SqlPath(p) && n.Some? && n.value.Leaf? && p[3] != Policy
    then AsLeaf(Selector(Some(n.value.value), p[3] == Release)) else n
  }

  lemma LookSql(f: Fields, k: Key)
    requires k in {Policy, Dialect, Variant, Release}
    requires forall j :: j in SqlSettings(f) ==> SqlSettings(f)[j].Leaf?
    ensures Look(f, [Files, Patch, Sql, k]) == AsLeaf(OptionAt(SqlAt(f), k))
  {
    var p := [Files, Patch, Sql, k];
    LookBelow(f, p);
    assert p[1..] == [Patch, Sql, k];
    LookThree(Sub(f, Files), p[1..]);
    hide Look;
    var settings := SqlSettings(f);
    assert Get(settings, k) == AsLeaf(TextOf(settings, k));
    assert SqlAt(f) == SqlOf(settings);
  }

  /** The stored SQL options are normal, and valid. */
  predicate SqlIsNormal(o: SqlOptions) {
    && ValidSelector(o.dialect, false) && Selector(o.dialect, false) == o.dialect
    && ValidSelector(o.variant, false) && Selector(o.variant, false) == o.variant
    && ValidSelector(o.release, true) && Selector(o.release, true) == o.release
  }

  ghost predicate SqlIsKept(f: Fields) {
    SqlIsNormal(SqlAt(f)) && forall k :: k in SqlSettings(f) ==> SqlSettings(f)[k].Leaf?
  }

  lemma MergedSqlIsNormal(incoming: SqlOptions, previous: SqlOptions)
    requires MergeSql(incoming, previous).Some?
    ensures SqlIsNormal(MergeSql(incoming, previous).value)
  {
    SelectorIsStable(Either(incoming.dialect, previous.dialect), false);
    SelectorIsStable(Either(incoming.variant, Kept(incoming, previous, previous.variant)), false);
    SelectorIsStable(Either(incoming.release, Kept(incoming, previous, previous.release)), true);
    hide Selector, ValidSelector;
  }

  lemma SettingsOfFiles(previous: Fields, incoming: Fields, sql: SqlOptions)
    ensures Sub(Sub(MergeFiles(previous, incoming, sql).fields, Patch), Sql) == SqlFields(sql)
    ensures forall k :: k in SqlFields(sql) ==> SqlFields(sql)[k].Leaf?
  {
  }

  lemma SqlStaysKept(result: Fields, layer: Fields)
    requires MergeLayer(result, layer).Some? && SqlIsKept(result)
    ensures SqlIsKept(MergeLayer(result, layer).value)
  {
    MergeSqlAt(result, layer);
    hide MergeLayer, MergedSection, MergeSql, MergeFiles, IncomingSql, SqlIsNormal, SqlFields;
    var merged := MergeLayer(result, layer).value;
    MergeIsPointwise(result, layer, Files);
    if Files !in layer {
      assert SqlSettings(merged) == SqlSettings(result);
    } else {
      MergedSqlIsNormal(SqlAt(layer), SqlAt(result));
      SectionMerges(result, layer, Files);
      MergedFiles(Sub(result, Files), Sub(layer, Files));
      var sql := MergeSql(SqlAt(layer), SqlAt(result)).value;
      FilesAreSection(Sub(result, Files), Sub(layer, Files), sql);
      SettingsOfFiles(Sub(result, Files), Sub(layer, Files), sql);
      assert SqlSettings(merged) == SqlFields(sql);
    }
  }

  /** A layer that changes the dialect drops the release and the variant it does not set. */
  predicate Drops(result: Fields, layer: Fields, p: Path) {
    SqlPath(p) && (p[3] == Variant || p[3] == Release) && Files in layer && ChangesDialect(SqlAt(layer), SqlAt(result))
  }

  lemma SqlOption(incoming: SqlOptions, previous: SqlOptions, k: Key)
    requires MergeSql(incoming, previous).Some? && SqlIsNormal(previous)
    requires k in {Policy, Dialect, Variant, Release}
    ensures OptionAt(MergeSql(incoming, previous).value, k)
         == (if OptionAt(incoming, k).Some? then
               if k == Policy then OptionAt(incoming, k) else Selector(OptionAt(incoming, k), k == Release)
             else if (k == Variant || k == Release) && ChangesDialect(incoming, previous) then None
             else OptionAt(previous, k))
  {
  }

  lemma NoFilesNoSql(layer: Fields)
    requires Files !in layer
    ensures SqlAt(layer) == SqlOptions(None, None, None, None)
  {
    assert Sub(layer, Files) == map[];
    NoSql();
  }

  /** What one merge does to one setting. */
  lemma MergeSetting(result: Fields, layer: Fields, p: Path)
    requires MergeLayer(result, layer).Some? && SqlIsKept(result) && Shaped(layer) && (PlainPath(p) || SqlPath(p))
    ensures Look(MergeLayer(result, layer).value, p)
         == if Look(layer, p).Some? then Normal(p, Look(layer, p))
            else if Drops(result, layer, p) then None
            else Look(result, p)
  {
    if PlainPath(p) {
      PlainIsNotSql(p);
      hide MergeLayer, Look, PlainPath;
      MergeOverrides(result, layer, p);
    } else {
      var merged := MergeLayer(result, layer).value;
      var k := p[3];
      assert p == [Files, Patch, Sql, k];
      MergeSqlAt(result, layer);
      SqlStaysKept(result, layer);
      hide MergeLayer, Look, MergeSql, IncomingSql, Selector, SqlIsNormal, ChangesDialect;
      LookSql(merged, k);
      LookSql(layer, k);
      LookSql(result, k);
      if Files in layer { SqlOption(SqlAt(layer), SqlAt(result), k); } else { NoFilesNoSql(layer); }
    }
  }

  lemma PlainIsNotSql(p: Path)
    requires PlainPath(p)
    ensures !SqlPath(p)
  {
    assert SqlPath(p) ==> |p| == 4 && p[0] == Files;
    assert |p| == 4 ==> p[..3][0] == Intelligence && p[0] == p[..3][0];
  }

  // ---------------------------------------------------------------- when a merge fails

  /** Every SQL option that is set is one that can be kept. */
  predicate OptionsAreValid(o: SqlOptions) {
    && (o.policy.Some? ==> o.policy.value in Policies)
    && ValidSelector(o.dialect, false) && ValidSelector(o.variant, false) && ValidSelector(o.release, true)
  }

  /** Options from earlier layers are valid, so only those that a layer brings can be rejected. */
  lemma OwnOptionsDecide(incoming: SqlOptions, previous: SqlOptions)
    requires OptionsAreValid(previous)
    ensures MergeSql(incoming, previous).Some? <==> OptionsAreValid(incoming)
    ensures MergeSql(incoming, previous).Some? ==> OptionsAreValid(MergeSql(incoming, previous).value)
  {
    if MergeSql(incoming, previous).Some? {
      MergedSqlIsNormal(incoming, previous);
    }
    hide Selector, IsName, IsRelease, Trim;
  }

  lemma OnlyFilesFail(section: Key, previous: Fields, incoming: Fields)
    requires IsSection(section)
    ensures MergedSection(section, previous, incoming).Some? <==>
              (section == Files ==> MergeSql(IncomingSql(incoming), IncomingSql(previous)).Some?)
  {
    hide MergeSql, IncomingSql, MergeFiles, MergeIntelligence, Both;
  }

  /** What a layer sets in its files section can be kept. */
  predicate CanBeKept(layer: Fields) {
    Files in layer ==> OptionsAreValid(SqlAt(layer))
  }

  lemma LayerMergesExactly(result: Fields, layer: Fields)
    requires OptionsAreValid(SqlAt(result))
    ensures MergeLayer(result, layer).Some? <==> CanBeKept(layer)
    ensures MergeLayer(result, layer).Some? ==> OptionsAreValid(SqlAt(MergeLayer(result, layer).value))
  {
    OwnOptionsDecide(SqlAt(layer), SqlAt(result));
    hide MergedSection, MergeEach, MergeSql, IncomingSql, OptionsAreValid, WithVersion;
    if MergeLayer(result, layer).Some? {
      MergeSqlAt(result, layer);
    } else {
      var start := WithVersion(result, layer);
      MergeStart(result, layer, Files);
      SectionsAre();
      if Files in layer ==> MergeSql(SqlAt(layer), SqlAt(result)).Some? {
        forall key | key in MergeSections && key in layer
          ensures MergedSection(key, Sub(start, key), Sub(layer, key)).Some?
        {
          OnlyFilesFail(key, Sub(start, key), Sub(layer, key));
        }
        EachSucceeds(start, layer, MergeSections);
      }
    }
  }

  /** A merge of layers fails exactly when one of them sets an SQL option that cannot be kept. */
  lemma {:induction false} MergesExactly(layers: seq<Fields>)
    ensures MergeAll(layers).Some? <==> forall i :: 0 <= i < |layers| ==> CanBeKept(layers[i])
    ensures MergeAll(layers).Some? ==> OptionsAreValid(SqlAt(MergeAll(layers).value))
    decreases |layers|
  {
    if layers == [] {
      NoFilesNoSql(map[]);
    } else {
      var before, last := layers[..|layers| - 1], layers[|layers| - 1];
      MergesExactly(before);
      hide MergeLayer, SqlAt, OptionsAreValid, CanBeKept;
      assert layers == before + [last];
      if MergeAll(before).Some? {
        LayerMergesExactly(MergeAll(before).value, last);
      }
    }
  }

  // ---------------------------------------------------------------- provenance

  datatype Layer = Layer(name: string, value: Fields)

  function Values(layers: seq<Layer>): seq<Fields> {
    seq(|layers|, i requires 0 <= i < |layers| => layers[i].value)
  }

  ghost predicate AllShaped(layers: seq<Layer>) {
    forall i :: 0 <= i < |layers| ==> Shaped(layers[i].value)
  }

  /** The provenance of one setting after all layers. */
  function ProvenanceOf(layers: seq<Layer>, p: Path): Option<string>
    requires p != [] && MergeAll(Values(layers)).Some?
    decreases |layers|
  {
    if layers == [] then None
    else
      var n := |layers| - 1;
      ValuesOfPrefix(layers);
      if Look(MergeAll(Values(layers)).value, p).None? then None
      else if Look(layers[n].value, p).Some? then Some(layers[n].name)
      else ProvenanceOf(layers[..n], p)
  }

  lemma ValuesOfPrefix(layers: seq<Layer>)
    requires layers != []
    ensures Values(layers)[..|layers| - 1] == Values(layers[..|layers| - 1])
    ensures MergeAll(Values(layers)).Some? ==> MergeAll(Values(layers[..|layers| - 1])).Some?
  {
    assert Values(layers)[..|layers| - 1] == Values(layers[..|layers| - 1]);
  }

  lemma MergeLast(layers: seq<Layer>)
    requires layers != [] && MergeAll(Values(layers)).Some?
    ensures MergeAll(Values(layers[..|layers| - 1])).Some?
    ensures MergeLayer(MergeAll(Values(layers[..|layers| - 1])).value, layers[|layers| - 1].value)
         == MergeAll(Values(layers))
  {
    ValuesOfPrefix(layers);
  }

  lemma {:induction false} MergedIsKept(layers: seq<Layer>)
    requires MergeAll(Values(layers)).Some? && AllShaped(layers)
    ensures SqlIsKept(MergeAll(Values(layers)).value) && Effective(MergeAll(Values(layers)).value)
    decreases |layers|
  {
    if layers == [] {
      NothingIsKept();
    } else {
      var n := |layers| - 1;
      MergeLast(layers);
      hide MergeLayer, MergeAll, SqlIsKept, Effective;
      MergedIsKept(layers[..n]);
      var before := MergeAll(Values(layers[..n])).value;
      SqlStaysKept(before, layers[n].value);
      MergeStaysEffective(before, layers[n].value);
    }
  }

  lemma NothingIsKept()
    ensures SqlIsKept(map[]) && Effective(map[])
  {
    NoFilesNoSql(map[]);
    NothingIsValid();
    assert Sub(map[], Files) == map[] && Sub(map[], Patch) == map[] && Sub(map[], Sql) == map[];
  }

  lemma ProvenanceNext(layers: seq<Layer>, p: Path)
    requires layers != [] && p != [] && MergeAll(Values(layers)).Some?
    ensures MergeAll(Values(layers[..|layers| - 1])).Some?
    ensures ProvenanceOf(layers, p)
         == if Look(MergeAll(Values(layers)).value, p).None? then None
            else if Look(layers[|layers| - 1].value, p).Some? then Some(layers[|layers| - 1].name)
            else ProvenanceOf(layers[..|layers| - 1], p)
  {
    ValuesOfPrefix(layers);
    hide Look, MergeLayer;
  }

  /** Where the effective value of a setting comes from. */
  ghost predicate ComesFrom(layers: seq<Layer>, p: Path, now: Option<Node>, source: Option<string>)
    requires p != []
  {
    if now.None? then source.None?
    else exists i: nat :: LastDefines(layers, p, i)
           && source == Some(layers[i].name) && now == Normal(p, Look(layers[i].value, p))
  }

  lemma ComesFromEarlier(layers: seq<Layer>, p: Path, now: Option<Node>, source: Option<string>)
    requires layers != [] && p != [] && now.Some? && Look(layers[|layers| - 1].value, p).None?
    requires ComesFrom(layers[..|layers| - 1], p, now, source)
    ensures ComesFrom(layers, p, now, source)
  {
    hide Look, Normal;
    var i: nat :| LastDefines(layers[..|layers| - 1], p, i) && source == Some(layers[..|layers| - 1][i].name)
                  && now == Normal(p, Look(layers[..|layers| - 1][i].value, p));
    assert LastDefines(layers, p, i);
  }

  lemma ComesFromLast(layers: seq<Layer>, p: Path, now: Option<Node>, source: Option<string>)
    requires layers != [] && p != [] && now.Some? && Look(layers[|layers| - 1].value, p).Some?
    requires source == Some(layers[|layers| - 1].name) && now == Normal(p, Look(layers[|layers| - 1].value, p))
    ensures ComesFrom(layers, p, now, source)
  {
    hide Look, Normal;
    assert LastDefines(layers, p, |layers| - 1);
  }

  /** The last layer that defines the setting. */
  predicate LastDefines(layers: seq<Layer>, p: Path, i: nat)
    requires p != []
  {
    && i < |layers| && Look(layers[i].value, p).Some?
    && forall j :: i < j < |layers| ==> Look(layers[j].value, p).None?
  }

  /**
    For every setting that is set, the provenance is the last layer that defines it, and the effective
    value is that layer's; a setting that is not set has no provenance.
  */
  lemma {:induction false} ProvenanceNamesTheDefiner(layers: seq<Layer>, p: Path)
    requires MergeAll(Values(layers)).Some? && AllShaped(layers) && (PlainPath(p) || SqlPath(p))
    ensures ComesFrom(layers, p, Look(MergeAll(Values(layers)).value, p), ProvenanceOf(layers, p))
    decreases |layers|
  {
    if layers == [] {
      LookNothing(map[], p);
    } else {
      var n := |layers| - 1;
      assert p != [];
      hide MergeLayer, MergeAll, Look, Shaped, SqlIsKept, Effective, PlainPath, SqlPath, Normal, ProvenanceOf;
      hide ComesFrom, Drops;
      MergeLast(layers);
      MergedIsKept(layers[..n]);
      var before := MergeAll(Values(layers[..n])).value;
      ProvenanceNamesTheDefiner(layers[..n], p);
      ProvenanceNext(layers, p);
      MergeSetting(before, layers[n].value, p);
      NothingComesFrom(layers, p);
      var now := Look(MergeAll(Values(layers)).value, p);
      if now.Some? && Look(layers[n].value, p).Some? {
        ComesFromLast(layers, p, now, ProvenanceOf(layers, p));
      } else if now.Some? {
        ComesFromEarlier(layers, p, now, ProvenanceOf(layers, p));
      }
    }
  }

  lemma NothingComesFrom(layers: seq<Layer>, p: Path)
    requires p != []
    ensures ComesFrom(layers, p, None, None)
  {
  }

  // ---------------------------------------------------------------- the code as it runs

  method MergeInto(result: Fields, layer: Fields) returns (merged: Option<Fields>)
    ensures merged == MergeLayer(result, layer)
  {
    var fields := result;
    if Version in layer {
      fields := fields[Version := layer[Version]];
    }
    var i := 0;
    assert MergeSections[0..] == MergeSections;
    while i < |MergeSections|
      invariant i <= |MergeSections|
      invariant MergeLayer(result, layer) == MergeEach(fields, layer, MergeSections[i..])
    {
      var section := MergeSections[i];
      assert MergeSections[i..][0] == section && MergeSections[i..][1..] == MergeSections[i + 1..];
      if section in layer {
        var node := MergedSection(section, Sub(fields, section), Sub(layer, section));
        if node.None? {
          return None;
        }
        fields := fields[section := node.value];
      }
      i := i + 1;
    }
    merged := Some(fields);
  }

  /** merge. */
  method Merge(layers: seq<Fields>) returns (merged: Option<Fields>)
    ensures merged == MergeAll(layers)
  {
    hide MergeLayer;
    var result: Fields := map[];
    var i := 0;
    while i < |layers|
      invariant i <= |layers| && MergeAll(layers[..i]) == Some(result)
    {
      assert layers[..i + 1][..i] == layers[..i] && layers[..i + 1][i] == layers[i];
      var next := MergeInto(result, layers[i]);
      if next.None? {
        FailureStays(layers, i + 1);
        return None;
      }
      result := next.value;
      i := i + 1;
    }
    assert layers[..i] == layers;
    merged := Some(result);
  }

  lemma {:induction false} FailureStays(layers: seq<Fields>, k: nat)
    requires k <= |layers| && MergeAll(layers[..k]).None?
    ensures MergeAll(layers).None?
    decreases |layers|
  {
    if k == |layers| {
      assert layers[..k] == layers;
    } else {
      assert layers[..|layers| - 1][..k] == layers[..k];
      FailureStays(layers[..|layers| - 1], k);
    }
  }

  /** Merging the running value with the next layer is merging all layers at once. */
  lemma RunningMerge(effective: Fields, layer: Fields)
    requires Effective(effective)
    ensures MergeAll([effective, layer]) == MergeLayer(effective, layer)
  {
    RemergeIsIdentity(effective);
    var both := [effective, layer];
    assert both[..1] == [effective] && [effective][..0] == [];
    hide MergeLayer;
    assert MergeAll([]) == Some(map[]);
    assert MergeAll([effective]) == Some(effective);
  }

  /** configProvenance for the given settings: the running value is merged with one layer after the other. */
  method ConfigProvenance(layers: seq<Layer>, leaves: seq<Path>) returns (provenance: map<Path, string>)
    requires MergeAll(Values(layers)).Some? && AllShaped(layers) && forall p :: p in leaves ==> p != []
    ensures forall p :: p in leaves ==>
              if ProvenanceOf(layers, p).Some? then p in provenance && provenance[p] == ProvenanceOf(layers, p).value
              else p !in provenance
  {
    provenance := map[];
    var effective: Fields := map[];
    var i := 0;
    assert Values(layers[..0]) == [] && Recorded(layers[..0], leaves, provenance);
    hide MergeAll, AllShaped, Recorded;
    while i < |layers|
      invariant i <= |layers| && MergeAll(Values(layers[..i])) == Some(effective)
      invariant Recorded(layers[..i], leaves, provenance)
    {
      NextPrefix(layers, i, effective);
      var next := Merge([effective, layers[i].value]);
      effective := next.value;
      provenance := RecordLayer(layers[..i + 1], effective, leaves, provenance);
      i := i + 1;
    }
    assert layers[..i] == layers && Recorded(layers, leaves, provenance);
    RecordedMeans(layers, leaves, provenance);
  }

  lemma RecordedMeans(layers: seq<Layer>, leaves: seq<Path>, provenance: map<Path, string>)
    requires MergeAll(Values(layers)).Some? && (forall p :: p in leaves ==> p != [])
    requires Recorded(layers, leaves, provenance)
    ensures forall p :: p in leaves ==>
              if ProvenanceOf(layers, p).Some? then p in provenance && provenance[p] == ProvenanceOf(layers, p).value
              else p !in provenance
  {
  }

  /** The running value, merged with the next layer, is the merge of one layer more. */
  lemma NextPrefix(layers: seq<Layer>, i: nat, effective: Fields)
    requires i < |layers| && MergeAll(Values(layers)).Some? && AllShaped(layers)
    requires MergeAll(Values(layers[..i])) == Some(effective)
    ensures MergeAll(Values(layers[..i + 1])).Some? && layers[..i + 1] != [] && layers[..i + 1][..i] == layers[..i]
    ensures MergeAll([effective, layers[i].value]) == MergeAll(Values(layers[..i + 1]))
  {
    PrefixMerges(layers, i + 1);
    PrefixMerges(layers, i);
    assert layers[..i + 1][..i] == layers[..i] && layers[..i + 1][i] == layers[i];
    hide Look, MergeLayer, Shaped, Effective, SqlIsKept;
    MergeLast(layers[..i + 1]);
    MergedIsKept(layers[..i]);
    RunningMerge(effective, layers[i].value);
  }

  ghost predicate Recorded(layers: seq<Layer>, leaves: seq<Path>, provenance: map<Path, string>)
    requires MergeAll(Values(layers)).Some? && forall p :: p in leaves ==> p != []
  {
    forall p :: p in leaves ==>
      if ProvenanceOf(layers, p).Some? then p in provenance && provenance[p] == ProvenanceOf(layers, p).value
      else p !in provenance
  }

  lemma {:induction false} PrefixMerges(layers: seq<Layer>, k: nat)
    requires k <= |layers| && MergeAll(Values(layers)).Some? && AllShaped(layers)
    ensures MergeAll(Values(layers[..k])).Some? && AllShaped(layers[..k])
    decreases |layers|
  {
    if k == |layers| {
      assert layers[..k] == layers;
    } else {
      ValuesOfPrefix(layers);
      assert layers[..|layers| - 1][..k] == layers[..k];
      PrefixMerges(layers[..|layers| - 1], k);
    }
  }

  /** The loop over the settings for one layer. */
  method RecordLayer(layers: seq<Layer>, effective: Fields, leaves: seq<Path>, before: map<Path, string>)
    returns (provenance: map<Path, string>)
    requires layers != [] && MergeAll(Values(layers)) == Some(effective) && forall p :: p in leaves ==> p != []
    requires MergeAll(Values(layers[..|layers| - 1])).Some? && Recorded(layers[..|layers| - 1], leaves, before)
    ensures Recorded(layers, leaves, provenance)
  {
    hide Look, MergeLayer, MergeAll;
    provenance := before;
    var layer := layers[|layers| - 1];
    var k := 0;
    while k < |leaves|
      invariant k <= |leaves|
      invariant forall p :: p in leaves && p in leaves[..k] ==>
                  if ProvenanceOf(layers, p).Some?
                  then p in provenance && provenance[p] == ProvenanceOf(layers, p).value
                  else p !in provenance
      invariant forall p :: p in leaves && p !in leaves[..k] ==>
                  (p in provenance <==> p in before) && (p in before ==> provenance[p] == before[p])
    {
      var p := leaves[k];
      assert p in leaves && leaves[..k + 1] == leaves[..k] + [p];
      ProvenanceNext(layers, p);
      if Look(effective, p).None? {
        provenance := provenance - {p};
      } else if Look(layer.value, p).Some? {
        provenance := provenance[p := layer.name];
      }
      k := k + 1;
    }
    assert leaves[..k] == leaves;
  }
}
