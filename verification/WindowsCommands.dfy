/**
  Whether a Windows command changes files (src/hooks/shell-policy.ts): a command line is cut into
  segments, a segment into tokens, and a payload of a nested shell is analysed in turn. Characters are
  compared by their ASCII lower case, and spaces are the ASCII ones.

  The analysis calls itself on the payloads of nested shells, so that it ends is a
  theorem: no segment is longer than its text (`SegmentsFit`), the joined tokens of a segment are no
  longer than the segment (`TokensFit`), and a payload is strictly shorter (`Payload`). On separated
  commands it is the disjunction of its parts (`CommandListMutates`).
*/
module WindowsCommands {
  import opened Options

  datatype Dialect = Cmd | PowerShell

  datatype Segment = Segment(redirected: bool, source: string)

  // ---------------------------------------------------------------- texts

  predicate IsSpace(c: char) {
    c == ' ' || '\t' <= c <= '\r'
  }

  predicate Blank(s: string) {
    forall i :: 0 <= i < |s| ==> IsSpace(s[i])
  }

  function LowerChar(c: char): char {
    if 'A' <= c <= 'Z' then c + ('a' - 'A') else c
  }

  function Lower(s: string): string {
    seq(|s|, i requires 0 <= i < |s| => LowerChar(s[i]))
  }

  /** What follows the literal (given in lower case) at the start of the text. */
  function Eat(s: string, literal: string): Option<string> {
    if |literal| <= |s| && Lower(s[..|literal|]) == literal then Some(s[|literal|..]) else None
  }

  function SkipSpaces(s: string): (rest: string)
    ensures |rest| <= |s|
  {
    if s != [] && IsSpace(s[0]) then SkipSpaces(s[1..]) else s
  }

  // ---------------------------------------------------------------- segments

  predicate Escape(c: char) {
    c == '`' || c == '^'
  }

  predicate Separates(c: char) {
    c in ";&|{}\r\n"
  }

  predicate EndsWord(s: string) {
    s == [] || IsSpace(s[0]) || s[0] in ";&|"
  }

  /** The target of a redirection is the null device or another descriptor. */
  predicate Harmless(s: string) {
    HarmlessTarget(SkipSpaces(if s != [] && s[0] == '>' then s[1..] else s))
  }

  /** The test on the target of a redirection, after its spaces. */
  predicate HarmlessTarget(target: string) {
    || (Eat(target, "$null").Some? && EndsWord(Eat(target, "$null").value))
    || (Eat(target, "nul").Some? && EndsWord(Eat(target, "nul").value))
    || (|target| >= 2 && target[0] == '&' && '0' <= target[1] <= '9' && EndsWord(target[2..]))
  }

  function Finished(current: string, redirected: bool): seq<Segment> {
    if Blank(current) then [] else [Segment(redirected, current)]
  }

  /** windowsSegments from some point on. */
  function SegmentsFrom(rest: string, current: string, quote: Option<char>, redirected: bool): seq<Segment>
    decreases |rest|
  {
    if rest == [] then Finished(current, redirected)
    else
      var c := rest[0];
      if Escape(c) && |rest| > 1 then SegmentsFrom(rest[2..], current + rest[..2], quote, redirected)
      else if quote.Some? then
        SegmentsFrom(rest[1..], current + [c], if Some(c) == quote then None else quote, redirected)
      else if c == '"' || c == '\'' then SegmentsFrom(rest[1..], current + [c], Some(c), redirected)
      else if c == '>' then SegmentsFrom(rest[1..], current + [c], None, redirected || !Harmless(rest[1..]))
      else if Separates(c) then Finished(current, redirected) + SegmentsFrom(rest[1..], [], None, false)
      else SegmentsFrom(rest[1..], current + [c], None, redirected)
  }

  function Segments(source: string): seq<Segment> {
    SegmentsFrom(source, [], None, false)
  }

  method WindowsSegments(source: string) returns (segments: seq<Segment>)
    ensures segments == Segments(source)
  {
    segments := [];
    var current: string := [];
    var quote: Option<char> := None;
    var redirected := false;
    var index := 0;
    while index < |source|
      invariant index <= |source|
      invariant Segments(source) == segments + SegmentsFrom(source[index..], current, quote, redirected)
    {
      var character := source[index];
      ghost var rest := source[index..];
      assert rest[0] == character && rest[1..] == source[index + 1..];
      if Escape(character) && index + 1 < |source| {
        assert rest[..2] == [character, source[index + 1]] && rest[2..] == source[index + 2..];
        current := current + [character, source[index + 1]];
        index := index + 1;
      } else if quote.Some? {
        current := current + [character];
        if Some(character) == quote {
          quote := None;
        }
      } else if character == '"' || character == '\'' {
        quote := Some(character);
        current := current + [character];
      } else if character == '>' {
        if !Harmless(source[index + 1..]) {
          redirected := true;
        }
        current := current + [character];
      } else if Separates(character) {
        segments := segments + Finished(current, redirected);
        current := [];
        redirected := false;
      } else {
        current := current + [character];
      }
      index := index + 1;
    }
    segments := segments + Finished(current, redirected);
  }

  /** No segment is longer than the text it comes from. */
  lemma {:induction false} SegmentsFit(rest: string, current: string, quote: Option<char>, redirected: bool, i: nat)
    requires i < |SegmentsFrom(rest, current, quote, redirected)|
    ensures |SegmentsFrom(rest, current, quote, redirected)[i].source| <= |current| + |rest|
    decreases |rest|
  {
    if rest != [] {
      var c := rest[0];
      if Escape(c) && |rest| > 1 {
        SegmentsFit(rest[2..], current + rest[..2], quote, redirected, i);
      } else if quote.Some? {
        SegmentsFit(rest[1..], current + [c], if Some(c) == quote then None else quote, redirected, i);
      } else if c == '"' || c == '\'' {
        SegmentsFit(rest[1..], current + [c], Some(c), redirected, i);
      } else if c == '>' {
        SegmentsFit(rest[1..], current + [c], None, redirected || !Harmless(rest[1..]), i);
      } else if Separates(c) {
        var done := Finished(current, redirected);
        if i >= |done| { SegmentsFit(rest[1..], [], None, false, i - |done|); }
      } else {
        SegmentsFit(rest[1..], current + [c], None, redirected, i);
      }
    }
  }

  // ---------------------------------------------------------------- tokens

  function Token(current: string): seq<string> {
    if current == [] then [] else [current]
  }

  /** windowsTokens from some point on. */
  function TokensFrom(rest: string, current: string, quote: Option<char>): seq<string>
    decreases |rest|
  {
    if rest == [] then Token(current)
    else
      var c := rest[0];
      if Escape(c) && |rest| > 1 then TokensFrom(rest[2..], current + [rest[1]], quote)
      else if quote.Some? then
        if Some(c) == quote then TokensFrom(rest[1..], current, None) else TokensFrom(rest[1..], current + [c], quote)
      else if c == '"' || c == '\'' then TokensFrom(rest[1..], current, Some(c))
      else if IsSpace(c) then Token(current) + TokensFrom(rest[1..], [], None)
      else TokensFrom(rest[1..], current + [c], None)
  }

  function Tokens(source: string): seq<string> {
    TokensFrom(source, [], None)
  }

  method WindowsTokens(source: string) returns (tokens: seq<string>)
    ensures tokens == Tokens(source)
  {
    tokens := [];
    var current: string := [];
    var quote: Option<char> := None;
    var index := 0;
    while index < |source|
      invariant index <= |source|
      invariant Tokens(source) == tokens + TokensFrom(source[index..], current, quote)
    {
      var character := source[index];
      ghost var rest := source[index..];
      assert rest[0] == character && rest[1..] == source[index + 1..];
      if Escape(character) && index + 1 < |source| {
        assert rest[1] == source[index + 1] && rest[2..] == source[index + 2..];
        index := index + 1;
        current := current + [source[index]];
      } else if quote.Some? {
        if Some(character) == quote {
          quote := None;
        } else {
          current := current + [character];
        }
      } else if character == '"' || character == '\'' {
        quote := Some(character);
      } else if IsSpace(character) {
        tokens := tokens + Token(current);
        current := [];
      } else {
        current := current + [character];
      }
      index := index + 1;
    }
    tokens := tokens + Token(current);
  }

  function Join(tokens: seq<string>): string {
    if tokens == [] then [] else if |tokens| == 1 then tokens[0] else tokens[0] + " " + Join(tokens[1..])
  }

  /** The tokens, joined with single spaces, are never longer than the text; none is empty. */
  lemma {:induction false} TokensFit(rest: string, current: string, quote: Option<char>)
    ensures |Join(TokensFrom(rest, current, quote))| <= |current| + |rest|
    ensures forall i :: 0 <= i < |TokensFrom(rest, current, quote)| ==> TokensFrom(rest, current, quote)[i] != []
    decreases |rest|
  {
    if rest != [] {
      var c := rest[0];
      if Escape(c) && |rest| > 1 {
        TokensFit(rest[2..], current + [rest[1]], quote);
      } else if quote.Some? {
        if Some(c) == quote {
          TokensFit(rest[1..], current, None);
        } else {
          TokensFit(rest[1..], current + [c], quote);
        }
      } else if c == '"' || c == '\'' {
        TokensFit(rest[1..], current, Some(c));
      } else if IsSpace(c) {
        TokensFit(rest[1..], [], None);
        var more := TokensFrom(rest[1..], [], None);
        if current != [] { assert ([current] + more)[1..] == more; } else { assert [] + more == more; }
      } else {
        TokensFit(rest[1..], current + [c], None);
      }
    }
  }

  // ---------------------------------------------------------------- names and payloads

  function AfterLastSlash(s: string): string {
    if s == [] then []
    else if forall i :: 0 <= i < |s| ==> s[i] != '/' && s[i] != '\\' then s
    else AfterLastSlash(s[1..])
  }

  predicate EndsWith(s: string, suffix: string) {
    |suffix| <= |s| && s[|s| - |suffix|..] == suffix
  }

  /** commandName. */
  function CommandName(value: string): string {
    var name := Lower(AfterLastSlash(value));
    if EndsWith(name, ".bat") || EndsWith(name, ".cmd") || EndsWith(name, ".exe") || EndsWith(name, ".ps1")
    then name[..|name| - 4] else name
  }

  const CmdMutators: set<string> := {
    "attrib", "copy", "del", "erase", "fsutil", "md", "mkdir", "mklink", "move", "rd", "ren", "rename", "replace",
    "rmdir", "robocopy", "sc", "xcopy"}

  const PowerShellMutators: set<string> := {
    "add-content", "clear-item", "clear-itemproperty", "clear-content", "copy", "copy-item", "cp", "cpi", "del",
    "erase", "md", "mi", "mkdir", "move", "move-item", "mv", "new-item", "ni", "out-file", "rd", "remove-item",
    "remove-itemproperty", "ren", "rename", "rename-item", "rename-itemproperty", "ri", "rm", "rni", "rmdir", "sc",
    "set-acl", "set-content", "set-item", "set-itemproperty", "si", "sp", "tee", "tee-object", "xcopy"}

  function Mutators(dialect: Dialect): set<string> {
    if dialect == PowerShell then PowerShellMutators else CmdMutators
  }

  const EncodedFlags: set<string> := {"-e", "-ec", "-en", "-enc", "-enco", "-encod", "-encode", "-encodedcommand"}

  function IndexOf(s: string, c: char): (i: nat)
    ensures i <= |s|
  {
    if s == [] || s[0] == c then 0 else 1 + IndexOf(s[1..], c)
  }

  predicate TakesPayload(arg: string, flags: seq<string>) {
    exists k :: 0 <= k < |flags| && (Lower(arg) == flags[k] || flags[k] + "=" <= Lower(arg))
  }

  /** payloadAfter, ignoring case. */
  function PayloadAfter(args: seq<string>, flags: seq<string>): Option<string> {
    if args == [] then None
    else if !TakesPayload(args[0], flags) then PayloadAfter(args[1..], flags)
    else if IndexOf(args[0], '=') < |args[0]| then Some(args[0][IndexOf(args[0], '=') + 1..])
    else if |args| > 1 then Some(args[1])
    else None
  }

  /** tokens without leading `&`, `@` and `(`. */
  function DropMarkers(tokens: seq<string>): seq<string> {
    if tokens != [] && tokens[0] in {"&", "@", "("} then DropMarkers(tokens[1..]) else tokens
  }

  function DropPrefix(s: string): string {
    if s != [] && s[0] in "@&(" then DropPrefix(s[1..]) else s
  }

  // ---------------------------------------------------------------- everything recursed into is shorter

  lemma {:induction false} JoinOfTail(tokens: seq<string>, k: nat)
    requires k <= |tokens|
    ensures |Join(tokens[k..])| <= |Join(tokens)|
    ensures k > 0 && tokens[0] != [] ==> |Join(tokens[k..])| < |Join(tokens)|
  {
    if k == 0 {
      assert tokens[0..] == tokens;
    } else {
      JoinOfTail(tokens[1..], k - 1);
      assert tokens[1..][k - 1..] == tokens[k..];
    }
  }

  lemma {:induction false} DropMarkersShrinks(tokens: seq<string>)
    ensures |Join(DropMarkers(tokens))| <= |Join(tokens)|
    ensures forall i :: 0 <= i < |DropMarkers(tokens)| ==> DropMarkers(tokens)[i] in tokens
  {
    if tokens != [] && tokens[0] in {"&", "@", "("} {
      DropMarkersShrinks(tokens[1..]);
      JoinOfTail(tokens, 1);
    }
  }

  lemma {:induction false} PayloadFits(args: seq<string>, flags: seq<string>)
    requires PayloadAfter(args, flags).Some?
    ensures |PayloadAfter(args, flags).value| <= |Join(args)|
  {
    if !TakesPayload(args[0], flags) {
      PayloadFits(args[1..], flags);
      JoinOfTail(args, 1);
    } else if |args| > 1 {
      JoinOfTail(args, 1);
      assert |args[1]| <= |Join(args[1..])|;
    }
  }

  /** The tokens of a segment after its markers, all that the analysis of the segment recurses into. */
  function Command(source: string): (tokens: seq<string>)
    ensures |Join(tokens)| <= |source|
    ensures tokens != [] ==> tokens[0] != []
    ensures forall k :: 0 < k <= |tokens| ==> |Join(tokens[k..])| < |source|
  {
    TokensFit(source, [], None);
    DropMarkersShrinks(Tokens(source));
    var tokens := DropMarkers(Tokens(source));
    assert tokens != [] ==> tokens[0] in Tokens(source);
    assert forall k :: 0 < k <= |tokens| ==> |Join(tokens[k..])| < |source| by {
      forall k | 0 < k <= |tokens| ensures |Join(tokens[k..])| < |source| { JoinOfTail(tokens, k); }
    }
    tokens
  }

  function Payload(source: string, flags: seq<string>): (payload: Option<string>)
    requires Command(source) != []
    ensures payload.Some? ==> |payload.value| < |source|
  {
    var args := Command(source)[1..];
    if PayloadAfter(args, flags).Some? then PayloadFits(args, flags); PayloadAfter(args, flags) else None
  }

  // ---------------------------------------------------------------- the analysis

  predicate IoCallAfterClass(s: string) {
    Eat(SkipSpaces(s), "::").Some?
    && var call := SkipSpaces(Eat(SkipSpaces(s), "::").value);
       exists k :: 0 <= k < |IoMethods| && Eat(call, IoMethods[k]).Some?
                   && Eat(SkipSpaces(Eat(call, IoMethods[k]).value), "(").Some?
  }

  const IoMethods: seq<string> := [
    "appendalltext", "copy", "create", "createdirectory", "createhardlink", "createsymboliclink", "delete", "move",
    "openwrite", "replace", "setattributes", "writeallbytes", "writealllines", "writealltext"]

  const IoClasses: seq<string> := ["[io.file]", "[io.directory]", "[system.io.file]", "[system.io.directory]"]

  /** A call of a file-changing .NET method somewhere in the text. */
  predicate CallsIo(s: string) {
    s != []
    && (|| (exists k :: 0 <= k < |IoClasses| && Eat(s, IoClasses[k]).Some?
                        && IoCallAfterClass(Eat(s, IoClasses[k]).value))
        || CallsIo(s[1..]))
  }

  predicate IsEncoded(token: string) {
    Lower(token) in EncodedFlags
  }

  /** windowsSegmentMutates; it ends on every text because every text it recurses into is shorter. */
  predicate SegmentMutates(source: string, dialect: Dialect)
    decreases |source|, 0
  {
    var tokens := Command(source);
    if tokens == [] || CommandName(tokens[0]) == [] then false
    else
      var name := CommandName(tokens[0]);
      if name in Mutators(dialect) then true
      else if name == "call" then SegmentMutates(Join(tokens[1..]), Cmd)
      else if name == "invoke-expression" || name == "iex" then ShellMutates(Join(tokens[1..]), PowerShell)
      else if name == "powershell" || name == "pwsh" then
        || (exists i :: 1 <= i < |tokens| && IsEncoded(tokens[i]))
        || (var payload := Payload(source, ["-c", "-command"]);
            payload.Some? && payload.value != [] && ShellMutates(payload.value, PowerShell))
      else if name == "cmd" then
        var payload := Payload(source, ["/c", "/k"]);
        payload.Some? && payload.value != [] && ShellMutates(payload.value, Cmd)
      else if name == "if" || name == "for" then
        exists i :: 1 <= i < |tokens| &&
          (|| CommandName(DropPrefix(tokens[i])) in Mutators(dialect)
           || (CommandName(DropPrefix(tokens[i])) in {"do", "else"} && SegmentMutates(Join(tokens[i + 1..]), dialect)))
      else false
  }

  /** windowsShellMutates. */
  predicate ShellMutates(source: string, dialect: Dialect)
    decreases |source|, 1
  {
    || CallsIo(source)
    || exists i :: 0 <= i < |Segments(source)| &&
         (|| Segments(source)[i].redirected
          || (SegmentsFit(source, [], None, false, i); SegmentMutates(Segments(source)[i].source, dialect)))
  }

  // ---------------------------------------------------------------- command lists

  /** Read from the given quotation state, the text ends outside quotes and without a pending escape. */
  predicate Closes(rest: string, quote: Option<char>)
    decreases |rest|
  {
    if rest == [] then quote.None?
    else
      var c := rest[0];
      if Escape(c) then |rest| > 1 && Closes(rest[2..], quote)
      else if quote.Some? then Closes(rest[1..], if Some(c) == quote then None else quote)
      else if c == '"' || c == '\'' then Closes(rest[1..], Some(c))
      else Closes(rest[1..], None)
  }

  /** Characters that no part of a redirection target or of a .NET call holds. */
  predicate Stops(c: char) {
    c in ";&|{}\""
  }

  lemma {:induction false} SkipStops(a: string, c: char, b: string)
    requires Stops(c)
    ensures SkipSpaces(a + [c] + b) == SkipSpaces(a) + [c] + b
  {
    var s := a + [c] + b;
    if a == [] {
      assert s[0] == c && !IsSpace(c);
      assert SkipSpaces(a) == [] && SkipSpaces(s) == s && [] + [c] + b == s;
    } else if IsSpace(a[0]) {
      assert s[0] == a[0] && s[1..] == a[1..] + [c] + b;
      SkipStops(a[1..], c, b);
    } else {
      assert s[0] == a[0];
    }
  }

  lemma EatStops(a: string, c: char, b: string, literal: string)
    requires Stops(c) && c !in literal
    ensures Eat(a + [c] + b, literal)
         == if Eat(a, literal).Some? then Some(Eat(a, literal).value + [c] + b) else None
  {
    var s, n := a + [c] + b, |literal|;
    if n <= |a| {
      assert s[..n] == a[..n] && s[n..] == a[n..] + [c] + b;
    } else if n <= |s| {
      assert Lower(s[..n])[|a|] == c;
      assert Lower(s[..n]) != literal;
    }
  }

  lemma MethodsAreLetters(k: nat)
    requires k < |IoMethods|
    ensures IoMethods[k] != [] && forall i :: 0 <= i < |IoMethods[k]| ==> 'a' <= IoMethods[k][i] <= 'z'
  {
  }

  lemma ClassesAreNames(k: nat)
    requires k < |IoClasses|
    ensures IoClasses[k] != [] && IoClasses[k][0] == '['
    ensures forall i :: 0 <= i < |IoClasses[k]| ==> 'a' <= IoClasses[k][i] <= 'z' || IoClasses[k][i] in "[]."
  {
  }

  lemma NoStops(c: char)
    requires Stops(c)
    ensures c !in "$null" && c !in "nul" && c !in "::" && c !in "("
    ensures forall k :: 0 <= k < |IoClasses| ==> c !in IoClasses[k] && IoClasses[k] != [] && IoClasses[k][0] == '['
    ensures forall k :: 0 <= k < |IoMethods| ==> c !in IoMethods[k]
  {
    assert c == ';' || c == '&' || c == '|' || c == '{' || c == '}' || c == '"';
    hide *;
    forall k | 0 <= k < |IoClasses| ensures c !in IoClasses[k] && IoClasses[k] != [] && IoClasses[k][0] == '[' {
      ClassesAreNames(k);
    }
    forall k | 0 <= k < |IoMethods| ensures c !in IoMethods[k] {
      MethodsAreLetters(k);
    }
  }

  lemma EndsWordStops(a: string, c: char, b: string)
    requires c in ";&|"
    ensures EndsWord(a + [c] + b) == EndsWord(a)
  {
    var s := a + [c] + b;
    if a != [] { assert s[0] == a[0]; } else { assert s[0] == c; }
  }

  lemma HarmlessStops(a: string, c: char, b: string)
    requires c == ';' || c == '|'
    ensures Harmless(a + [c] + b) == Harmless(a)
  {
    var s := a + [c] + b;
    var start := if a != [] && a[0] == '>' then a[1..] else a;
    assert (if s != [] && s[0] == '>' then s[1..] else s) == start + [c] + b;
    SkipStops(start, c, b);
    TargetStops(SkipSpaces(start), c, b);
  }

  lemma AfterTwo(target: string, c: char, b: string)
    requires |target| >= 2
    ensures var whole := target + [c] + b;
            whole[0] == target[0] && whole[1] == target[1] && whole[2..] == target[2..] + [c] + b
  {
  }

  lemma TargetStops(target: string, c: char, b: string)
    requires c == ';' || c == '|'
    ensures HarmlessTarget(target + [c] + b) == HarmlessTarget(target)
  {
    NoStops(c);
    EatStops(target, c, b, "$null");
    EatStops(target, c, b, "nul");
    if Eat(target, "$null").Some? { EndsWordStops(Eat(target, "$null").value, c, b); }
    if Eat(target, "nul").Some? { EndsWordStops(Eat(target, "nul").value, c, b); }
    var whole := target + [c] + b;
    if |target| >= 2 {
      AfterTwo(target, c, b);
      EndsWordStops(target[2..], c, b);
    } else {
      assert whole[|target|] == c;
    }
  }

  /** A separator after a closed text ends its last segment, unless it could belong to a redirection. */
  lemma {:induction false} SegmentsOfList(
    a: string, c: char, b: string, current: string, quote: Option<char>, redirected: bool)
    requires Closes(a, quote) && Separates(c) && (c == ';' || c == '|' || '>' !in a)
    ensures SegmentsFrom(a + [c] + b, current, quote, redirected)
         == SegmentsFrom(a, current, quote, redirected) + Segments(b)
    decreases |a|
  {
    var s := a + [c] + b;
    if a == [] {
      assert s[0] == c && s[1..] == b && !Escape(c) && c != '"' && c != '\'' && c != '>';
    } else {
      var x := a[0];
      assert s[0] == x && s[1..] == a[1..] + [c] + b;
      if Escape(x) {
        assert s[..2] == a[..2] && s[2..] == a[2..] + [c] + b;
        SegmentsOfList(a[2..], c, b, current + a[..2], quote, redirected);
      } else if quote.Some? {
        SegmentsOfList(a[1..], c, b, current + [x], if Some(x) == quote then None else quote, redirected);
      } else if x == '"' || x == '\'' {
        SegmentsOfList(a[1..], c, b, current + [x], Some(x), redirected);
      } else if x == '>' {
        HarmlessStops(a[1..], c, b);
        SegmentsOfList(a[1..], c, b, current + [x], None, redirected || !Harmless(a[1..]));
      } else if Separates(x) {
        SegmentsOfList(a[1..], c, b, [], None, false);
      } else {
        SegmentsOfList(a[1..], c, b, current + [x], None, redirected);
      }
    }
  }

  lemma IoCallStops(a: string, c: char, b: string)
    requires Stops(c)
    ensures IoCallAfterClass(a + [c] + b) == IoCallAfterClass(a)
  {
    NoStops(c);
    SkipStops(a, c, b);
    EatStops(SkipSpaces(a), c, b, "::");
    if Eat(SkipSpaces(a), "::").Some? {
      var after := Eat(SkipSpaces(a), "::").value;
      SkipStops(after, c, b);
      var call := SkipSpaces(after);
      forall k | 0 <= k < |IoMethods|
        ensures (Eat(call + [c] + b, IoMethods[k]).Some?
                 && Eat(SkipSpaces(Eat(call + [c] + b, IoMethods[k]).value), "(").Some?)
            <==> (Eat(call, IoMethods[k]).Some? && Eat(SkipSpaces(Eat(call, IoMethods[k]).value), "(").Some?)
      {
        EatStops(call, c, b, IoMethods[k]);
        if Eat(call, IoMethods[k]).Some? {
          SkipStops(Eat(call, IoMethods[k]).value, c, b);
          EatStops(SkipSpaces(Eat(call, IoMethods[k]).value), c, b, "(");
        }
      }
    }
  }

  lemma {:induction false} CallsIoInList(a: string, c: char, b: string)
    requires Stops(c)
    ensures CallsIo(a + [c] + b) == (CallsIo(a) || CallsIo(b))
    decreases |a|
  {
    var s := a + [c] + b;
    NoStops(c);
    if a == [] {
      assert s[0] == c && s[1..] == b;
      forall k | 0 <= k < |IoClasses| ensures Eat(s, IoClasses[k]).None? {
        assert |s| >= |IoClasses[k]| ==> Lower(s[..|IoClasses[k]|])[0] == c;
      }
    } else {
      assert s[1..] == a[1..] + [c] + b;
      CallsIoInList(a[1..], c, b);
      forall k | 0 <= k < |IoClasses|
        ensures (Eat(s, IoClasses[k]).Some? && IoCallAfterClass(Eat(s, IoClasses[k]).value))
            <==> (Eat(a, IoClasses[k]).Some? && IoCallAfterClass(Eat(a, IoClasses[k]).value))
      {
        EatStops(a, c, b, IoClasses[k]);
        if Eat(a, IoClasses[k]).Some? { IoCallStops(Eat(a, IoClasses[k]).value, c, b); }
      }
    }
  }

  lemma {:induction false} SkipExtends(a: string, x: string)
    requires SkipSpaces(a) != []
    ensures SkipSpaces(a + x) == SkipSpaces(a) + x
  {
    assert (a + x)[0] == a[0] && (a + x)[1..] == a[1..] + x;
    if IsSpace(a[0]) { SkipExtends(a[1..], x); }
  }

  lemma EatExtends(a: string, x: string, literal: string)
    requires Eat(a, literal).Some?
    ensures Eat(a + x, literal) == Some(Eat(a, literal).value + x)
  {
    var n := |literal|;
    assert (a + x)[..n] == a[..n] && (a + x)[n..] == a[n..] + x;
  }

  lemma IoCallExtends(a: string, x: string)
    requires IoCallAfterClass(a)
    ensures IoCallAfterClass(a + x)
  {
    SkipExtends(a, x);
    EatExtends(SkipSpaces(a), x, "::");
    var after := Eat(SkipSpaces(a), "::").value;
    var k :| 0 <= k < |IoMethods| && Eat(SkipSpaces(after), IoMethods[k]).Some?
             && Eat(SkipSpaces(Eat(SkipSpaces(after), IoMethods[k]).value), "(").Some?;
    MethodsAreLetters(k);
    SkipExtends(after, x);
    EatExtends(SkipSpaces(after), x, IoMethods[k]);
    var rest := Eat(SkipSpaces(after), IoMethods[k]).value;
    SkipExtends(rest, x);
    EatExtends(SkipSpaces(rest), x, "(");
  }

  /** A .NET call stays one whatever stands around it. */
  lemma {:induction false} CallsIoExtends(before: string, a: string, x: string)
    requires CallsIo(a)
    ensures CallsIo(before + a + x)
    decreases |before| + |a|
  {
    if before != [] {
      assert (before + a + x)[1..] == before[1..] + a + x;
      CallsIoExtends(before[1..], a, x);
    } else {
      assert before + a + x == a + x;
      if k :| 0 <= k < |IoClasses| && Eat(a, IoClasses[k]).Some? && IoCallAfterClass(Eat(a, IoClasses[k]).value) {
        EatExtends(a, x, IoClasses[k]);
        IoCallExtends(Eat(a, IoClasses[k]).value, x);
      } else {
        assert (a + x)[1..] == [] + a[1..] + x;
        CallsIoExtends([], a[1..], x);
      }
    }
  }

  ghost predicate Mutates(segment: Segment, dialect: Dialect) {
    segment.redirected || SegmentMutates(segment.source, dialect)
  }

  lemma ShellMutatesBySegment(source: string, dialect: Dialect)
    ensures ShellMutates(source, dialect)
       <==> CallsIo(source) || exists segment :: segment in Segments(source) && Mutates(segment, dialect)
  {
    if i :| 0 <= i < |Segments(source)| && Mutates(Segments(source)[i], dialect) {
      SegmentsFit(source, [], None, false, i);
      assert Segments(source)[i] in Segments(source);
    }
  }

  /**
    A list of commands changes files exactly when one of the commands does: after a semicolon or a bar,
    and after an ampersand or a brace too unless the first command redirects its output.
  */
  lemma CommandListMutates(a: string, c: char, b: string, dialect: Dialect)
    requires Closes(a, None) && (c == ';' || c == '|' || (c in "&{}" && '>' !in a))
    ensures ShellMutates(a + [c] + b, dialect) <==> ShellMutates(a, dialect) || ShellMutates(b, dialect)
  {
    SegmentsOfList(a, c, b, [], None, false);
    CallsIoInList(a, c, b);
    assert Segments(a + [c] + b) == Segments(a) + Segments(b);
    hide Segments, CallsIo, ShellMutates, SegmentMutates;
    ShellMutatesBySegment(a + [c] + b, dialect);
    ShellMutatesBySegment(a, dialect);
    ShellMutatesBySegment(b, dialect);
  }

  /** Commands on lines of their own: the same, but for a .NET call that goes on over the line's end. */
  lemma CommandLinesMutate(a: string, c: char, b: string, dialect: Dialect)
    requires Closes(a, None) && (c == '\n' || c == '\r') && '>' !in a
    ensures ShellMutates(a + [c] + b, dialect) <==>
              CallsIo(a + [c] + b) || ShellMutates(a, dialect) || ShellMutates(b, dialect)
  {
    SegmentsOfList(a, c, b, [], None, false);
    if CallsIo(a) { CallsIoExtends([], a, [c] + b); }
    if CallsIo(b) { CallsIoExtends(a + [c], b, []); }
    assert [] + a + ([c] + b) == a + [c] + b && (a + [c]) + b + [] == a + [c] + b;
    assert Segments(a + [c] + b) == Segments(a) + Segments(b);
    hide Segments, CallsIo, ShellMutates, SegmentMutates;
    ShellMutatesBySegment(a + [c] + b, dialect);
    ShellMutatesBySegment(a, dialect);
    ShellMutatesBySegment(b, dialect);
  }
}
