/**
  Which Windows command lines count as changing files (src/hooks/shell-policy.ts), told by the text of
  the line: a line is written from words, bare or in double quotes, and read back as those words; and the
  answer follows from the first word, from the payload that a nested shell is given, and from what the
  output goes to.
*/
module WindowsTexts {
  import opened Options
  import opened WindowsCommands

  // ---------------------------------------------------------------- lines of words

  /** A word of a command line, as it is written. */
  datatype Word = Bare(text: string) | Quoted(text: string)

  predicate PlainChar(c: char) {
    !IsSpace(c) && !Escape(c) && c != '"' && c != '\'' && c != '>' && !Separates(c)
  }

  predicate WellWritten(w: Word) {
    w.text != [] &&
    if w.Bare? then forall c :: c in w.text ==> PlainChar(c)
    else forall c :: c in w.text ==> c != '"' && !Escape(c)
  }

  predicate AllWritten(words: seq<Word>) {
    forall i :: 0 <= i < |words| ==> WellWritten(words[i])
  }

  function Written(w: Word): string {
    if w.Bare? then w.text else "\"" + w.text + "\""
  }

  /** The words with single spaces between them. */
  function Line(words: seq<Word>): string {
    if words == [] then []
    else if |words| == 1 then Written(words[0])
    else Written(words[0]) + (" " + Line(words[1..]))
  }

  function Texts(words: seq<Word>): (texts: seq<string>)
    ensures |texts| == |words| && forall i :: 0 <= i < |words| ==> texts[i] == words[i].text
  {
    seq(|words|, i requires 0 <= i < |words| => words[i].text)
  }

  /** The text is over, or a space follows. */
  predicate Ends(rest: string) {
    rest == [] || IsSpace(rest[0])
  }

  lemma {:induction false} BareTokens(w: string, rest: string, current: string)
    requires forall c :: c in w ==> PlainChar(c)
    ensures TokensFrom(w + rest, current, None) == TokensFrom(rest, current + w, None)
  {
    if w == [] {
      assert w + rest == rest && current + w == current;
    } else {
      var c := w[0];
      assert c in w && (w + rest)[0] == c && (w + rest)[1..] == w[1..] + rest;
      assert forall x :: x in w[1..] ==> x in w;
      BareTokens(w[1..], rest, current + [c]);
      assert current + [c] + w[1..] == current + w;
    }
  }

  lemma {:induction false} QuotedTokens(w: string, rest: string, current: string)
    requires forall c :: c in w ==> c != '"' && !Escape(c)
    ensures TokensFrom(w + "\"" + rest, current, Some('"')) == TokensFrom(rest, current + w, None)
  {
    var s := w + "\"" + rest;
    if w == [] {
      assert s[0] == '"' && s[1..] == rest && current + w == current && !Escape('"');
    } else {
      var c := w[0];
      assert c in w && s[0] == c && s[1..] == w[1..] + "\"" + rest;
      assert forall x :: x in w[1..] ==> x in w;
      QuotedTokens(w[1..], rest, current + [c]);
      assert current + [c] + w[1..] == current + w;
    }
  }

  lemma EndedToken(current: string, rest: string)
    requires current != [] && Ends(rest)
    ensures TokensFrom(rest, current, None) == [current] + if rest == [] then [] else Tokens(rest[1..])
  {
    if rest != [] { assert !Escape(rest[0]) && rest[0] != '"' && rest[0] != '\''; }
  }

  lemma QuotedParts(text: string, rest: string)
    ensures var s := Written(Quoted(text)) + rest;
            s != [] && s[0] == '"' && s[1..] == text + "\"" + rest
  {
  }

  lemma OpensQuote(s: string)
    requires s != [] && s[0] == '"'
    ensures TokensFrom(s, [], None) == TokensFrom(s[1..], [], Some('"'))
  {
  }

  /** A written word is read as its text. */
  lemma WordTokens(w: Word, rest: string)
    requires WellWritten(w) && Ends(rest)
    ensures Tokens(Written(w) + rest) == [w.text] + if rest == [] then [] else Tokens(rest[1..])
  {
    hide TokensFrom;
    assert [] + w.text == w.text;
    EndedToken(w.text, rest);
    if w.Bare? {
      BareTokens(w.text, rest, []);
    } else {
      QuotedParts(w.text, rest);
      hide Written;
      OpensQuote(Written(w) + rest);
      QuotedTokens(w.text, rest, []);
    }
  }

  lemma LineNext(words: seq<Word>)
    requires |words| > 1
    ensures Line(words) == Written(words[0]) + (" " + Line(words[1..]))
    ensures Texts(words) == [words[0].text] + Texts(words[1..])
  {
    hide Written;
  }

  lemma AllNext(words: seq<Word>)
    requires AllWritten(words) && words != []
    ensures WellWritten(words[0]) && AllWritten(words[1..])
  {
    hide WellWritten;
    assert forall i :: 0 <= i < |words[1..]| ==> words[1..][i] == words[i + 1];
  }

  lemma SpaceBetween(a: string, b: string, rest: string)
    ensures a + (" " + b) + rest == a + (" " + (b + rest)) && (" " + (b + rest))[1..] == b + rest
    ensures Ends(" " + (b + rest)) && " " + (b + rest) != []
  {
  }

  /** A line of words, followed by nothing or by more text after a space, is read as those words first. */
  lemma {:induction false} LineTokens(words: seq<Word>, rest: string)
    requires AllWritten(words) && words != [] && Ends(rest)
    ensures Tokens(Line(words) + rest) == Texts(words) + if rest == [] then [] else Tokens(rest[1..])
  {
    hide Tokens, TokensFrom, WellWritten;
    AllNext(words);
    if |words| == 1 {
      assert Line(words) == Written(words[0]);
      WordTokens(words[0], rest);
      assert Texts(words) == [words[0].text];
    } else {
      LineNext(words);
      hide Line, AllWritten, Written, Texts, Ends;
      var tail := Line(words[1..]) + rest;
      SpaceBetween(Written(words[0]), Line(words[1..]), rest);
      WordTokens(words[0], " " + tail);
      LineTokens(words[1..], rest);
      Regroup([words[0].text], Texts(words[1..]), if rest == [] then [] else Tokens(rest[1..]));
    }
  }

  lemma Regroup(a: seq<string>, b: seq<string>, c: seq<string>)
    ensures a + b + c == a + (b + c)
  {
  }

  // ---------------------------------------------------------------- the segments of a line

  lemma {:induction false} BareSegments(w: string, rest: string, current: string, redirected: bool)
    requires forall c :: c in w ==> PlainChar(c) || IsBlank(c)
    ensures SegmentsFrom(w + rest, current, None, redirected) == SegmentsFrom(rest, current + w, None, redirected)
  {
    if w == [] {
      assert w + rest == rest && current + w == current;
    } else {
      var c := w[0];
      assert c in w && (w + rest)[0] == c && (w + rest)[1..] == w[1..] + rest;
      assert forall x :: x in w[1..] ==> x in w;
      BareSegments(w[1..], rest, current + [c], redirected);
      assert current + [c] + w[1..] == current + w;
    }
  }

  /** A space that does not end a line. */
  predicate IsBlank(c: char) {
    IsSpace(c) && !Separates(c)
  }

  lemma {:induction false} QuotedSegments(w: string, rest: string, current: string, redirected: bool)
    requires forall c :: c in w ==> c != '"' && !Escape(c)
    ensures SegmentsFrom(w + "\"" + rest, current, Some('"'), redirected)
         == SegmentsFrom(rest, current + w + "\"", None, redirected)
  {
    var s := w + "\"" + rest;
    if w == [] {
      assert s[0] == '"' && s[1..] == rest && current + w + "\"" == current + ['"'] && !Escape('"');
    } else {
      var c := w[0];
      assert c in w && s[0] == c && s[1..] == w[1..] + "\"" + rest;
      assert forall x :: x in w[1..] ==> x in w;
      QuotedSegments(w[1..], rest, current + [c], redirected);
      assert current + [c] + w[1..] + "\"" == current + w + "\"";
    }
  }

  lemma WordSegments(w: Word, rest: string, current: string, redirected: bool)
    requires WellWritten(w)
    ensures SegmentsFrom(Written(w) + rest, current, None, redirected)
         == SegmentsFrom(rest, current + Written(w), None, redirected)
  {
    if w.Bare? {
      BareSegments(w.text, rest, current, redirected);
    } else {
      var s := Written(w) + rest;
      assert s[0] == '"' && s[1..] == w.text + "\"" + rest && !Escape('"');
      QuotedSegments(w.text, rest, current + ['"'], redirected);
      assert current + ['"'] + w.text + "\"" == current + Written(w);
    }
  }

  /** A line of words is one segment, up to whatever follows it. */
  lemma SpaceAfter(current: string, a: string, b: string)
    ensures current + a + " " + b == current + (a + (" " + b))
  {
  }

  lemma SpaceIsBlank()
    ensures forall c :: c in " " ==> PlainChar(c) || IsBlank(c)
  {
  }

  lemma {:induction false} LineSegments(words: seq<Word>, rest: string, current: string, redirected: bool)
    requires AllWritten(words)
    ensures SegmentsFrom(Line(words) + rest, current, None, redirected)
         == SegmentsFrom(rest, current + Line(words), None, redirected)
  {
    hide SegmentsFrom, WellWritten;
    if words == [] {
      assert Line(words) + rest == rest && current + Line(words) == current;
    } else if |words| == 1 {
      assert WellWritten(words[0]) && Line(words) == Written(words[0]);
      WordSegments(words[0], rest, current, redirected);
    } else {
      var w := words[0];
      LineNext(words);
      AllNext(words);
      hide Line, AllWritten, Written, Texts, PlainChar;
      var tail := Line(words[1..]) + rest;
      SpaceBetween(Written(w), Line(words[1..]), rest);
      SpaceAfter(current, Written(w), Line(words[1..]));
      SpaceIsBlank();
      WordSegments(w, " " + tail, current, redirected);
      BareSegments(" ", tail, current + Written(w), redirected);
      LineSegments(words[1..], rest, current + Written(w) + " ", redirected);
    }
  }

  lemma LineIsNotBlank(words: seq<Word>, rest: string)
    requires AllWritten(words) && words != []
    ensures Line(words) != [] && !Blank(Line(words) + rest)
  {
    var w := words[0];
    assert WellWritten(w) && Written(w) != [] && Line(words)[0] == Written(w)[0];
    assert w.Bare? ==> w.text[0] in w.text;
    assert !IsSpace((Line(words) + rest)[0]);
  }

  lemma LineIsOneSegment(words: seq<Word>)
    requires AllWritten(words) && words != []
    ensures Segments(Line(words)) == [Segment(false, Line(words))]
  {
    var line := Line(words);
    LineIsNotBlank(words, []);
    assert SegmentsFrom([], line, None, false) == [Segment(false, line)] by { assert line + [] == line; }
    hide SegmentsFrom, Line, WellWritten;
    LineSegments(words, [], [], false);
    assert line + [] == line && [] + line == line;
  }

  /** A line of words changes files if a .NET call in it does, or its one segment. */
  lemma LineMutates(words: seq<Word>, dialect: Dialect)
    requires AllWritten(words) && words != []
    ensures ShellMutates(Line(words), dialect) <==> CallsIo(Line(words)) || SegmentMutates(Line(words), dialect)
  {
    hide Segments, CallsIo, ShellMutates, SegmentMutates, Line, AllWritten;
    var segment := Segment(false, Line(words));
    LineIsOneSegment(words);
    ShellMutatesBySegment(Line(words), dialect);
    assert segment in [segment];
    assert Mutates(segment, dialect) <==> SegmentMutates(Line(words), dialect);
  }

  // ---------------------------------------------------------------- the command of a line

  predicate IsMarker(text: string) {
    text in {"&", "@", "("}
  }

  /** The command that a line of words names, when no marker stands before it. */
  lemma LineCommand(words: seq<Word>)
    requires AllWritten(words) && words != [] && !IsMarker(words[0].text)
    ensures Command(Line(words)) == Texts(words)
  {
    hide Line, AllWritten, Tokens;
    LineTokens(words, []);
    assert Line(words) + [] == Line(words) && Texts(words) + [] == Texts(words);
  }

  /** The answer depends on the command that is read, not on how it is written. */
  lemma SameCommand(a: string, b: string, dialect: Dialect)
    requires Command(a) == Command(b)
    ensures SegmentMutates(a, dialect) == SegmentMutates(b, dialect)
  {
    hide Command, ShellMutates, Mutators;
  }

  lemma MarkerIsWritten(marker: string, words: seq<Word>)
    requires (marker == "@" || marker == "(") && AllWritten(words)
    ensures AllWritten([Bare(marker)] + words)
  {
    assert WellWritten(Bare(marker));
    hide WellWritten;
  }

  /** Leading `@` and `(` change nothing. */
  lemma MarkersAreSkipped(marker: string, words: seq<Word>, dialect: Dialect)
    requires (marker == "@" || marker == "(") && AllWritten(words) && words != []
    ensures SegmentMutates(Line([Bare(marker)] + words), dialect) == SegmentMutates(Line(words), dialect)
  {
    var all := [Bare(marker)] + words;
    assert Texts(all) == [marker] + Texts(words);
    MarkerIsWritten(marker, words);
    hide Line, Tokens, AllWritten, Texts, SegmentMutates;
    LineReads(all);
    LineReads(words);
    DropsMarker(marker, Texts(words));
    SameCommand(Line(all), Line(words), dialect);
  }

  lemma LineReads(words: seq<Word>)
    requires AllWritten(words) && words != []
    ensures Tokens(Line(words)) == Texts(words)
  {
    hide Line, Tokens, AllWritten;
    LineTokens(words, []);
    assert Line(words) + [] == Line(words) && Texts(words) + [] == Texts(words);
  }

  lemma DropsMarker(marker: string, tokens: seq<string>)
    requires IsMarker(marker)
    ensures DropMarkers([marker] + tokens) == DropMarkers(tokens)
  {
    assert ([marker] + tokens)[1..] == tokens;
  }

  lemma {:induction false} LastSlash(dir: string, file: string)
    requires dir == [] || dir[|dir| - 1] == '/' || dir[|dir| - 1] == '\\'
    requires '/' !in file && '\\' !in file
    ensures AfterLastSlash(dir + file) == file
    decreases |dir|
  {
    var s := dir + file;
    if dir == [] {
      assert s == file;
      assert forall i :: 0 <= i < |file| ==> file[i] in file;
      if file != [] { assert AfterLastSlash(file) == file; }
    } else {
      assert s[|dir| - 1] == dir[|dir| - 1];
      assert s[1..] == dir[1..] + file;
      LastSlash(dir[1..], file);
    }
  }

  lemma LowerJoins(a: string, b: string)
    ensures Lower(a + b) == Lower(a) + Lower(b)
  {
  }

  /** A program is named by its file without directory, extension and case. */
  lemma CommandNames(dir: string, name: string, extension: string)
    requires dir == [] || dir[|dir| - 1] == '/' || dir[|dir| - 1] == '\\'
    requires '/' !in name && '\\' !in name && '/' !in extension && '\\' !in extension
    requires Lower(extension) in {".bat", ".cmd", ".exe", ".ps1"}
    ensures CommandName(dir + name + extension) == Lower(name)
  {
    assert dir + name + extension == dir + (name + extension);
    LastSlash(dir, name + extension);
    LowerJoins(name, extension);
    var whole := Lower(name) + Lower(extension);
    assert |Lower(extension)| == 4 && whole[|whole| - 4..] == Lower(extension) && whole[..|whole| - 4] == Lower(name);
  }

  // ---------------------------------------------------------------- commands that change files

  /** The first segment goes on with what has been read, and stays redirected. */
  lemma {:induction false} FirstSegment(rest: string, current: string, quote: Option<char>, redirected: bool)
    returns (k: nat)
    requires !Blank(current)
    ensures k <= |rest| && |SegmentsFrom(rest, current, quote, redirected)| > 0
    ensures SegmentsFrom(rest, current, quote, redirected)[0].source == current + rest[..k]
    ensures redirected ==> SegmentsFrom(rest, current, quote, redirected)[0].redirected
    decreases |rest|
  {
    k := 0;
    assert current + rest[..0] == current;
    if rest != [] {
      var c := rest[0];
      if Escape(c) && |rest| > 1 {
        NotBlankStill(current, rest[..2]);
        k := FirstSegment(rest[2..], current + rest[..2], quote, redirected);
        ReadOn(current, rest, 2, k);
        k := k + 2;
      } else if quote.Some? || c == '"' || c == '\'' || c == '>' || !Separates(c) {
        NotBlankStill(current, [c]);
        k := FirstSegment(rest[1..], current + [c], NextQuote(c, quote),
                          if quote.None? && c == '>' then redirected || !Harmless(rest[1..]) else redirected);
        assert rest[..1] == [c];
        ReadOn(current, rest, 1, k);
        k := k + 1;
      }
    }
  }

  lemma ReadOn(current: string, rest: string, n: nat, k: nat)
    requires n <= |rest| && k <= |rest| - n
    ensures current + rest[..n] + rest[n..][..k] == current + rest[..k + n]
  {
  }

  function NextQuote(c: char, quote: Option<char>): Option<char> {
    if quote.Some? then if Some(c) == quote then None else quote
    else if c == '"' || c == '\'' then Some(c)
    else None
  }

  lemma NotBlankStill(current: string, more: string)
    requires !Blank(current)
    ensures !Blank(current + more)
  {
    var i :| 0 <= i < |current| && !IsSpace(current[i]);
    assert (current + more)[i] == current[i];
  }

  lemma SegmentDecides(source: string, segment: Segment, dialect: Dialect)
    requires segment in Segments(source) && Mutates(segment, dialect)
    ensures ShellMutates(source, dialect)
  {
    hide Segments, ShellMutates, SegmentMutates, CallsIo;
    ShellMutatesBySegment(source, dialect);
  }

  lemma NamedMutates(source: string, dialect: Dialect, name: string, more: seq<string>)
    requires Tokens(source) == [name] + more && CommandName(name) in Mutators(dialect)
    ensures SegmentMutates(source, dialect)
  {
    hide Tokens;
    MarkersAreNoMutators(name, dialect);
    assert Command(source) == [name] + more && Command(source)[0] == name;
    assert CommandName(name) != [];
  }

  lemma {:induction false} AfterSlashFits(s: string)
    ensures |AfterLastSlash(s)| <= |s|
  {
    if s != [] { AfterSlashFits(s[1..]); }
  }

  lemma CommandNameFits(value: string)
    ensures |CommandName(value)| <= |value|
  {
    AfterSlashFits(value);
  }

  lemma CmdMutatorsAreLong(name: string)
    requires name in CmdMutators
    ensures |name| > 1
  {
  }

  lemma PowerShellMutatorsAreLong(name: string)
    requires name in PowerShellMutators
    ensures |name| > 1
  {
  }

  lemma MutatorsAreLong(name: string, dialect: Dialect)
    requires name in Mutators(dialect)
    ensures |name| > 1
  {
    if dialect == PowerShell { PowerShellMutatorsAreLong(name); } else { CmdMutatorsAreLong(name); }
  }

  lemma MarkersAreNoMutators(name: string, dialect: Dialect)
    requires CommandName(name) in Mutators(dialect)
    ensures !IsMarker(name) && CommandName(name) != []
  {
    hide CommandName, Mutators;
    MutatorsAreLong(CommandName(name), dialect);
    CommandNameFits(name);
  }

  /** A command of the dialect's list changes files, whatever follows it. */
  lemma MutatorsMutate(w: Word, tail: string, dialect: Dialect)
    requires WellWritten(w) && Ends(tail)
    requires CommandName(w.text) in if dialect == Cmd then CmdMutators else PowerShellMutators
    ensures ShellMutates(Written(w) + tail, dialect)
  {
    var source := Written(w) + tail;
    WordSegments(w, tail, [], false);
    assert [] + Written(w) == Written(w);
    LineIsNotBlank([w], []);
    assert Written(w) + [] == Written(w) && Line([w]) == Written(w);
    hide SegmentsFrom, CommandName, ShellMutates, SegmentMutates, Written, Line, Tokens, WellWritten;
    var k := FirstSegment(tail, Written(w), None, false);
    var first := SegmentsFrom(tail, Written(w), None, false)[0];
    assert first in Segments(source);
    WordTokens(w, tail[..k]);
    var more := if tail[..k] == [] then [] else Tokens(tail[..k][1..]);
    NamedMutates(first.source, dialect, w.text, more);
    SegmentDecides(source, first, dialect);
  }

  // ---------------------------------------------------------------- commands that run others

  predicate RunsOthers(name: string) {
    name in {"call", "invoke-expression", "iex", "powershell", "pwsh", "cmd", "if", "for"}
  }

  lemma RunnersAreNotInCmd(name: string)
    requires RunsOthers(name)
    ensures name !in CmdMutators
  {
  }

  lemma RunnersAreNotInPowerShell(name: string)
    requires RunsOthers(name)
    ensures name !in PowerShellMutators
  {
    assert |name| == 2 || |name| == 3 || |name| == 4 || |name| == 10 || |name| == 17;
  }

  lemma RunnersAreNoMutators(name: string, dialect: Dialect)
    requires RunsOthers(name)
    ensures name !in Mutators(dialect)
  {
    RunnersAreNotInCmd(name);
    RunnersAreNotInPowerShell(name);
    hide RunsOthers;
  }

  /** A line of words whose first word is this command. */
  predicate Calls(words: seq<Word>, name: string) {
    AllWritten(words) && words != [] && CommandName(words[0].text) == name
  }

  lemma CallsMeans(words: seq<Word>, name: string)
    requires Calls(words, name) && RunsOthers(name)
    ensures Command(Line(words)) == Texts(words) && name == CommandName(Texts(words)[0]) != []
  {
    hide AllWritten, Line;
    if IsMarker(words[0].text) { CommandNameFits(words[0].text); }
    RunnersAreLong(name);
    hide CommandName;
    LineCommand(words);
  }

  lemma RunnersAreLong(name: string)
    requires RunsOthers(name)
    ensures |name| > 1
  {
  }

  predicate AllBare(words: seq<Word>) {
    forall i :: 0 <= i < |words| ==> words[i].Bare?
  }

  /** Bare words joined again are the line that they are written on. */
  lemma {:induction false} BareLine(words: seq<Word>)
    requires AllBare(words)
    ensures Join(Texts(words)) == Line(words)
  {
    if |words| > 1 {
      LineNext(words);
      assert forall i :: 0 <= i < |words[1..]| ==> words[1..][i] == words[i + 1];
      BareLine(words[1..]);
      assert Texts(words)[1..] == Texts(words[1..]) && Texts(words)[0] == words[0].text == Written(words[0]);
      var a, b := Texts(words)[0], Line(words[1..]);
      assert a + " " + b == a + (" " + b);
    }
  }

  lemma {:induction false} CallsIoBehind(before: string, text: string)
    requires '[' !in before
    ensures CallsIo(before + text) == CallsIo(text)
  {
    if before == [] {
      assert before + text == text;
    } else {
      var s := before + text;
      assert s[0] == before[0] && before[0] in before && s[1..] == before[1..] + text;
      assert forall c :: c in before[1..] ==> c in before;
      CallsIoBehind(before[1..], text);
      forall k | 0 <= k < |IoClasses| ensures Eat(s, IoClasses[k]).None? {
        ClassesAreNames(k);
        if |IoClasses[k]| <= |s| { assert Lower(s[..|IoClasses[k]|])[0] == LowerChar(s[0]) != '['; }
      }
    }
  }

  /** A .NET call in a written word is one in its text. */
  lemma CallsIoInWord(w: Word)
    ensures CallsIo(Written(w)) == CallsIo(w.text)
  {
    if w.Quoted? {
      assert Written(w) == "\"" + (w.text + ['"'] + []) && w.text + ['"'] + [] == w.text + "\"";
      CallsIoBehind("\"", w.text + ['"'] + []);
      assert '"' in ";&|{}\"";
      CallsIoInList(w.text, '"', []);
    }
  }

  /** No .NET class is named in the text. */
  predicate NamesNoClass(text: string) {
    '[' !in text
  }

  lemma CallsIoAfterWord(a: string, b: string)
    requires NamesNoClass(a)
    ensures CallsIo(a + (" " + b)) == CallsIo(b)
  {
    var more := " " + b;
    assert " " + b == [' '] + b;
    CallsIoBehind([' '], b);
    hide CallsIo;
    CallsIoBehind(a, more);
  }

  lemma WrittenNamesNoClass(w: Word)
    requires NamesNoClass(w.text)
    ensures NamesNoClass(Written(w))
  {
  }

  lemma CallsIoAfterName(words: seq<Word>)
    requires |words| > 1 && NamesNoClass(words[0].text)
    ensures CallsIo(Line(words)) == CallsIo(Line(words[1..]))
  {
    hide CallsIo, Written, NamesNoClass;
    WrittenNamesNoClass(words[0]);
    var a, b := Written(words[0]), Line(words[1..]);
    assert Line(words) == a + (" " + b);
    CallsIoAfterWord(a, b);
  }

  lemma RestIsWritten(words: seq<Word>)
    requires AllWritten(words) && |words| > 1
    ensures AllWritten(words[1..]) && Texts(words)[1..] == Texts(words[1..])
  {
    AllNext(words);
    hide WellWritten;
  }

  /** `call` answers as the command after it does in the dialect of cmd. */
  lemma CallAnswersAs(words: seq<Word>, dialect: Dialect)
    requires Calls(words, "call") && |words| > 1 && NamesNoClass(words[0].text) && AllBare(words[1..])
    ensures ShellMutates(Line(words), dialect) <==> ShellMutates(Line(words[1..]), Cmd)
  {
    CallsMeans(words, "call");
    RunnersAreNoMutators("call", dialect);
    RestIsWritten(words);
    BareLine(words[1..]);
    assert SegmentMutates(Line(words), dialect) == SegmentMutates(Line(words[1..]), Cmd);
    hide SegmentMutates, ShellMutates, Line, AllWritten, CallsIo;
    LineMutates(words, dialect);
    LineMutates(words[1..], Cmd);
    CallsIoAfterName(words);
  }

  /** Evaluating bare words answers as their line does in PowerShell. */
  lemma EvaluationAnswersAs(words: seq<Word>, name: string, dialect: Dialect)
    requires Calls(words, name) && (name == "iex" || name == "invoke-expression")
    requires |words| > 1 && NamesNoClass(words[0].text) && AllBare(words[1..])
    ensures ShellMutates(Line(words), dialect) <==> ShellMutates(Line(words[1..]), PowerShell)
  {
    CallsMeans(words, name);
    RunnersAreNoMutators(name, dialect);
    RestIsWritten(words);
    BareLine(words[1..]);
    assert SegmentMutates(Line(words), dialect) == ShellMutates(Line(words[1..]), PowerShell);
    hide SegmentMutates, ShellMutates, Line, AllWritten, CallsIo;
    LineMutates(words, dialect);
    LineMutates(words[1..], PowerShell);
    CallsIoAfterName(words);
  }

  /** Evaluating one quoted text answers as that text does in PowerShell. */
  lemma QuotedEvaluationAnswersAs(c: Word, text: string, name: string, dialect: Dialect)
    requires Calls([c, Quoted(text)], name) && (name == "iex" || name == "invoke-expression") && NamesNoClass(c.text)
    ensures ShellMutates(Line([c, Quoted(text)]), dialect) <==> ShellMutates(text, PowerShell)
  {
    var words := [c, Quoted(text)];
    CallsMeans(words, name);
    RunnersAreNoMutators(name, dialect);
    assert Texts(words)[1..] == [text] && words[1..] == [Quoted(text)] && Line(words[1..]) == Written(Quoted(text));
    assert SegmentMutates(Line(words), dialect) == ShellMutates(text, PowerShell);
    assert CallsIo(text) ==> ShellMutates(text, PowerShell);
    hide SegmentMutates, ShellMutates, Line, AllWritten, CallsIo;
    LineMutates(words, dialect);
    CallsIoAfterName(words);
    CallsIoInWord(Quoted(text));
  }

  // ---------------------------------------------------------------- nested shells

  /** The flags with which a shell takes a command, and the dialect of that command. */
  function PayloadFlags(name: string): seq<string> {
    if name == "cmd" then ["/c", "/k"] else ["-c", "-command"]
  }

  function PayloadDialect(name: string): Dialect {
    if name == "cmd" then Cmd else PowerShell
  }

  predicate IsShell(name: string) {
    name in {"powershell", "pwsh", "cmd"}
  }

  lemma {:induction false} IndexOfNone(s: string, c: char)
    requires c !in s
    ensures IndexOf(s, c) == |s|
  {
    if s != [] {
      assert s[0] in s && forall x :: x in s[1..] ==> x in s;
      IndexOfNone(s[1..], c);
    }
  }

  lemma FlagHasNoEquals(flag: string, name: string)
    requires Lower(flag) in PayloadFlags(name)
    ensures IndexOf(flag, '=') == |flag|
  {
    var low := Lower(flag);
    assert low == "/c" || low == "/k" || low == "-c" || low == "-command";
    assert '=' !in low;
    forall i | 0 <= i < |flag| ensures flag[i] != '=' { assert low[i] == LowerChar(flag[i]) && low[i] in low; }
    IndexOfNone(flag, '=');
  }

  lemma {:induction false} PayloadFound(
    before: seq<string>, flag: string, payload: string, after: seq<string>, name: string)
    requires Lower(flag) in PayloadFlags(name)
    requires forall i :: 0 <= i < |before| ==> !TakesPayload(before[i], PayloadFlags(name))
    ensures PayloadAfter(before + [flag, payload] + after, PayloadFlags(name)) == Some(payload)
  {
    var args, flags := before + [flag, payload] + after, PayloadFlags(name);
    if before == [] {
      assert args[0] == flag && args[1] == payload;
      var k :| 0 <= k < |flags| && flags[k] == Lower(flag);
      assert TakesPayload(flag, flags);
      FlagHasNoEquals(flag, name);
    } else {
      assert args[0] == before[0] && args[1..] == before[1..] + [flag, payload] + after;
      PayloadFound(before[1..], flag, payload, after, name);
    }
  }

  /** No word of these makes the shell decode its command. */
  predicate NothingEncoded(words: seq<Word>) {
    forall i :: 0 <= i < |words| ==> !IsEncoded(words[i].text)
  }

  lemma ShellDecides(words: seq<Word>, name: string, payload: string, dialect: Dialect)
    requires Calls(words, name) && IsShell(name) && payload != []
    requires PayloadAfter(Texts(words)[1..], PayloadFlags(name)) == Some(payload)
    requires name == "cmd" || NothingEncoded(words[1..])
    ensures SegmentMutates(Line(words), dialect) <==> ShellMutates(payload, PayloadDialect(name))
  {
    CallsMeans(words, name);
    RunnersAreNoMutators(name, dialect);
    hide ShellMutates, Line, AllWritten, CommandName, PayloadAfter, TokensFrom, Calls;
    var source := Line(words);
    assert Payload(source, PayloadFlags(name)) == Some(payload);
    if name != "cmd" {
      forall i | 1 <= i < |words| ensures !IsEncoded(Texts(words)[i]) {
        assert words[1..][i - 1] == words[i];
      }
    }
  }

  /**
    A shell that is given a command, after any options that take none, changes files as that command does
    in the dialect of the shell. What follows the command does not matter, nor does the outer dialect.
  */
  lemma PayloadDecides(
    c: Word, before: seq<Word>, flag: Word, payload: Word, after: seq<Word>, name: string, dialect: Dialect)
    requires Calls([c] + before + [flag, payload] + after, name) && IsShell(name)
    requires Lower(flag.text) in PayloadFlags(name)
    requires forall i :: 0 <= i < |before| ==> !TakesPayload(before[i].text, PayloadFlags(name))
    requires name == "cmd" || NothingEncoded(before + [flag, payload] + after)
    ensures SegmentMutates(Line([c] + before + [flag, payload] + after), dialect)
       <==> ShellMutates(payload.text, PayloadDialect(name))
  {
    var words := [c] + before + [flag, payload] + after;
    var args := before + [flag, payload] + after;
    assert words[1..] == args && Texts(words)[1..] == Texts(before) + [flag.text, payload.text] + Texts(after);
    assert words[|before| + 2] == payload && WellWritten(words[|before| + 2]);
    PayloadFound(Texts(before), flag.text, payload.text, Texts(after), name);
    hide Line, ShellMutates, SegmentMutates, PayloadAfter, Calls, AllWritten, TakesPayload;
    ShellDecides(words, name, payload.text, dialect);
  }

  /** On a line of its own: `cmd /c p` and `powershell -Command p` answer as p does. */
  lemma NestedShellAnswersAs(c: Word, flag: Word, payload: Word, name: string, dialect: Dialect)
    requires Calls([c, flag, payload], name) && IsShell(name) && Lower(flag.text) in PayloadFlags(name)
    requires NamesNoClass(c.text) && (name == "cmd" || NothingEncoded([flag, payload]))
    ensures ShellMutates(Line([c, flag, payload]), dialect) <==> ShellMutates(payload.text, PayloadDialect(name))
  {
    var words := [c, flag, payload];
    assert [c] + [] + [flag, payload] + [] == words && [] + [flag, payload] + [] == [flag, payload];
    PayloadDecides(c, [], flag, payload, [], name, dialect);
    assert words[1..] == [flag, payload] && words[1..][1..] == [payload] && Line([payload]) == Written(payload);
    assert AllWritten(words);
    assert CallsIo(payload.text) ==> ShellMutates(payload.text, PayloadDialect(name));
    FlagNamesNoClass(flag.text, name);
    hide ShellMutates, SegmentMutates, CallsIo, Line, AllWritten;
    LineMutates(words, dialect);
    CallsIoAfterName(words);
    CallsIoAfterName(words[1..]);
    CallsIoInWord(payload);
  }

  lemma FlagNamesNoClass(flag: string, name: string)
    requires Lower(flag) in PayloadFlags(name)
    ensures NamesNoClass(flag)
  {
    var low := Lower(flag);
    assert low == "/c" || low == "/k" || low == "-c" || low == "-command";
    assert '[' !in low;
    forall i | 0 <= i < |flag| ensures flag[i] != '[' { assert low[i] == LowerChar(flag[i]) && low[i] in low; }
  }

  lemma EncodedDecides(source: string, i: nat, name: string, dialect: Dialect)
    requires Command(source) != [] && CommandName(Command(source)[0]) == name
    requires name == "powershell" || name == "pwsh"
    requires 1 <= i < |Command(source)| && IsEncoded(Command(source)[i])
    ensures SegmentMutates(source, dialect)
  {
    RunnersAreNoMutators(name, dialect);
    hide Command, CommandName, Mutators, ShellMutates, IsEncoded, Payload, RunsOthers;
  }

  /** A command that PowerShell is to decode counts as changing files. */
  lemma EncodedMutates(words: seq<Word>, i: nat, name: string, dialect: Dialect)
    requires Calls(words, name) && (name == "powershell" || name == "pwsh") && 1 <= i < |words|
    requires Lower(words[i].text) in EncodedFlags
    ensures ShellMutates(Line(words), dialect)
  {
    CallsMeans(words, name);
    assert AllWritten(words) && IsEncoded(Texts(words)[i]);
    hide SegmentMutates, ShellMutates, Line, AllWritten, CommandName, Calls, CallsIo, Command, IsEncoded;
    EncodedDecides(Line(words), i, name, dialect);
    LineMutates(words, dialect);
  }

  // ---------------------------------------------------------------- branches and loops

  /** The word of a branch or loop names a command of the list, or the rest of its line changes files. */
  predicate BranchRuns(words: seq<Word>, i: nat, dialect: Dialect)
    requires i < |words|
  {
    var name := CommandName(DropPrefix(words[i].text));
    name in Mutators(dialect) || (name in {"do", "else"} && SegmentMutates(Line(words[i + 1..]), dialect))
  }

  /** The same for the tokens as they are read. */
  predicate TokenRuns(tokens: seq<string>, i: nat, dialect: Dialect)
    requires i < |tokens|
  {
    var name := CommandName(DropPrefix(tokens[i]));
    name in Mutators(dialect) || (name in {"do", "else"} && SegmentMutates(Join(tokens[i + 1..]), dialect))
  }

  lemma TokenBranches(source: string, name: string, dialect: Dialect)
    requires Command(source) != [] && CommandName(Command(source)[0]) == name && (name == "if" || name == "for")
    ensures SegmentMutates(source, dialect)
       <==> exists i :: 1 <= i < |Command(source)| && TokenRuns(Command(source), i, dialect)
  {
    RunnersAreNoMutators(name, dialect);
    hide Command, CommandName, DropPrefix, Mutators, Join, ShellMutates, RunsOthers, Payload, IsEncoded;
    var tokens := Command(source);
    if SegmentMutates(source, dialect) {
      var i :| 1 <= i < |tokens| &&
        (|| CommandName(DropPrefix(tokens[i])) in Mutators(dialect)
         || (CommandName(DropPrefix(tokens[i])) in {"do", "else"} && SegmentMutates(Join(tokens[i + 1..]), dialect)));
      assert TokenRuns(tokens, i, dialect);
    }
    if i :| 1 <= i < |tokens| && TokenRuns(tokens, i, dialect) {
      assert tokens[i] == tokens[i];
    }
  }

  lemma WordIsToken(words: seq<Word>, i: nat, dialect: Dialect)
    requires i < |words| && AllBare(words)
    ensures TokenRuns(Texts(words), i, dialect) == BranchRuns(words, i, dialect)
  {
    assert AllBare(words[i + 1..]) && Texts(words)[i + 1..] == Texts(words[i + 1..]);
    BareLine(words[i + 1..]);
    hide SegmentMutates, CommandName, DropPrefix, Mutators, Join, Line;
  }

  /** `if` and `for` change files if any of their words names a command that does, or what follows `do` or `else`. */
  lemma BranchMutatesExactly(words: seq<Word>, name: string, dialect: Dialect)
    requires Calls(words, name) && (name == "if" || name == "for") && AllBare(words)
    ensures SegmentMutates(Line(words), dialect)
       <==> exists i :: 1 <= i < |words| && BranchRuns(words, i, dialect)
  {
    CallsMeans(words, name);
    hide SegmentMutates, Line, AllWritten, CommandName, Calls, TokenRuns, BranchRuns, Command;
    TokenBranches(Line(words), name, dialect);
    forall i | 1 <= i < |words| ensures TokenRuns(Texts(words), i, dialect) == BranchRuns(words, i, dialect) {
      WordIsToken(words, i, dialect);
    }
  }

  // ---------------------------------------------------------------- everything else

  predicate Ordinary(name: string, dialect: Dialect) {
    !RunsOthers(name) && name !in Mutators(dialect)
  }

  /** Any other command of words changes nothing, but for a .NET call in the line. */
  lemma OrdinaryDoesNothing(words: seq<Word>, name: string, dialect: Dialect)
    requires Calls(words, name) && !IsMarker(words[0].text) && Ordinary(name, dialect)
    ensures ShellMutates(Line(words), dialect) <==> CallsIo(Line(words))
  {
    LineCommand(words);
    hide ShellMutates, Line, AllWritten, CommandName, CallsIo, TokensFrom;
    assert !SegmentMutates(Line(words), dialect);
    hide SegmentMutates;
    LineMutates(words, dialect);
  }

  // ---------------------------------------------------------------- where the output goes

  /** The text redirects its output after a. */
  lemma {:induction false} RedirectedSegment(
    a: string, target: string, current: string, quote: Option<char>, redirected: bool) returns (segment: Segment)
    requires Closes(a, quote) && !Harmless(target)
    ensures segment in SegmentsFrom(a + ">" + target, current, quote, redirected) && segment.redirected
    decreases |a|
  {
    var s := a + ">" + target;
    if a == [] {
      assert s[0] == '>' && s[1..] == target && !Escape('>');
      assert !Blank(current + ['>']) by { assert (current + ['>'])[|current|] == '>'; }
      var k := FirstSegment(target, current + ['>'], None, true);
      segment := SegmentsFrom(target, current + ['>'], None, true)[0];
    } else {
      var x := a[0];
      assert s[0] == x && s[1..] == a[1..] + ">" + target;
      if Escape(x) {
        assert s[..2] == a[..2] && s[2..] == a[2..] + ">" + target;
        segment := RedirectedSegment(a[2..], target, current + a[..2], quote, redirected);
      } else if quote.Some? || x == '"' || x == '\'' || x == '>' || !Separates(x) {
        segment := RedirectedSegment(a[1..], target, current + [x], NextQuote(x, quote),
                                     if quote.None? && x == '>' then redirected || !Harmless(s[1..]) else redirected);
      } else {
        segment := RedirectedSegment(a[1..], target, [], None, false);
      }
    }
  }

  /** Output to anything but the null device or another descriptor changes files. */
  lemma RedirectionMutates(a: string, target: string, dialect: Dialect)
    requires Closes(a, None) && !Harmless(target)
    ensures ShellMutates(a + ">" + target, dialect)
  {
    var segment := RedirectedSegment(a, target, [], None, false);
    hide Closes, Harmless, SegmentsFrom, SegmentMutates, ShellMutates;
    SegmentDecides(a + ">" + target, segment, dialect);
  }

  predicate NullDevice(sink: string) {
    Lower(sink) == "nul" || Lower(sink) == "$null"
  }

  lemma NullIsHarmless(sink: string)
    requires NullDevice(sink)
    ensures Harmless(sink) && forall c :: c in sink ==> PlainChar(c)
  {
    var low := Lower(sink);
    forall i | 0 <= i < |sink| ensures PlainChar(sink[i]) {
      assert low[i] == LowerChar(sink[i]) && low[i] in "$nul";
    }
    assert low[0] == LowerChar(sink[0]) && sink[0] in sink;
    assert SkipSpaces(sink) == sink && sink[..|sink|] == sink && sink[|sink|..] == [];
  }

  lemma QuietStart(sink: string, current: string)
    requires Harmless(sink)
    ensures SegmentsFrom([' ', '>'] + sink, current, None, false)
         == SegmentsFrom(sink, current + [' ', '>'], None, false)
  {
    var tail := [' ', '>'] + sink;
    assert tail[1..] == ['>'] + sink && (['>'] + sink)[1..] == sink;
    assert current + [' '] + ['>'] == current + [' ', '>'];
  }

  lemma QuietTail(sink: string, current: string)
    requires NullDevice(sink)
    ensures SegmentsFrom([' ', '>'] + sink, current, None, false)
         == SegmentsFrom([], current + [' ', '>'] + sink, None, false)
  {
    NullIsHarmless(sink);
    QuietStart(sink, current);
    BareSegments(sink, [], current + [' ', '>'], false);
    assert sink + [] == sink;
  }

  lemma QuietToken(sink: string)
    requires NullDevice(sink)
    ensures Tokens(['>'] + sink) == [['>'] + sink]
  {
    NullIsHarmless(sink);
    assert (['>'] + sink)[1..] == sink && sink + [] == sink && [] + ['>'] == ['>'];
    BareTokens(sink, [], ['>']);
  }

  /** The line with its output sent to the null device. */
  function Silenced(words: seq<Word>, sink: string): string {
    Line(words) + ([' ', '>'] + sink)
  }

  lemma SilencedSegments(words: seq<Word>, sink: string)
    requires AllWritten(words) && words != [] && NullDevice(sink)
    ensures Segments(Silenced(words, sink)) == [Segment(false, Silenced(words, sink))]
  {
    var tail := [' ', '>'] + sink;
    QuietTail(sink, Line(words));
    LineIsNotBlank(words, tail);
    assert Line(words) + [' ', '>'] + sink == Line(words) + tail && [] + Line(words) == Line(words);
    assert SegmentsFrom([], Line(words) + tail, None, false) == [Segment(false, Line(words) + tail)];
    hide Line, SegmentsFrom, AllWritten, NullDevice;
    LineSegments(words, tail, [], false);
  }

  lemma SilencedTokens(words: seq<Word>, sink: string)
    requires AllWritten(words) && words != [] && NullDevice(sink)
    ensures Tokens(Silenced(words, sink)) == Texts(words) + [['>'] + sink]
  {
    var tail := [' ', '>'] + sink;
    assert tail[1..] == ['>'] + sink;
    hide Line, TokensFrom, AllWritten, NullDevice, Tokens;
    QuietToken(sink);
    LineTokens(words, tail);
  }

  /** Nor does such a command when its output goes to the null device. */
  lemma QuietlyDoesNothing(words: seq<Word>, name: string, sink: string, dialect: Dialect)
    requires Calls(words, name) && !IsMarker(words[0].text) && Ordinary(name, dialect) && NullDevice(sink)
    ensures ShellMutates(Silenced(words, sink), dialect) <==> CallsIo(Silenced(words, sink))
  {
    var source := Silenced(words, sink);
    SilencedSegments(words, sink);
    SilencedTokens(words, sink);
    hide Silenced, Segments, CallsIo, ShellMutates, Line, AllWritten, CommandName, Tokens, NullDevice;
    var segment := Segment(false, source);
    assert Command(source)[0] == words[0].text;
    assert !SegmentMutates(source, dialect);
    hide SegmentMutates;
    ShellMutatesBySegment(source, dialect);
    assert segment in [segment];
    assert !Mutates(segment, dialect);
  }

  lemma ClassCalled(name: string, rest: string, k: nat)
    requires k < |IoClasses| && IoClasses[k] == Lower(name) && IoCallAfterClass(rest)
    ensures CallsIo(name + rest)
  {
    ClassesAreNames(k);
    hide IoCallAfterClass;
    var call := name + rest;
    assert call[..|name|] == name && call[|name|..] == rest && call != [];
    assert Eat(call, IoClasses[k]) == Some(rest);
  }

  /** A call of one of these methods of one of these classes changes files wherever it stands. */
  lemma IoCallMutates(before: string, name: string, action: string, after: string, dialect: Dialect)
    requires Lower(name) in IoClasses && Lower(action) in IoMethods
    ensures ShellMutates(before + (name + ("::" + action + "(")) + after, dialect)
  {
    var k :| 0 <= k < |IoClasses| && IoClasses[k] == Lower(name);
    var m :| 0 <= m < |IoMethods| && IoMethods[m] == Lower(action);
    hide IoCallAfterClass, CallsIo;
    MethodCalled(action, m);
    ClassCalled(name, "::" + action + "(", k);
    CallsIoExtends(before, name + ("::" + action + "("), after);
  }

  lemma MethodCalled(action: string, m: nat)
    requires m < |IoMethods| && IoMethods[m] == Lower(action)
    ensures IoCallAfterClass("::" + action + "(")
  {
    MethodsAreLetters(m);
    var rest := "::" + action + "(";
    var named := action + "(";
    assert rest[0] == ':' && SkipSpaces(rest) == rest && rest[..2] == "::" && rest[2..] == named;
    assert Lower("::") == "::";
    assert LowerChar(action[0]) == IoMethods[m][0];
    assert named[0] == action[0] && !IsSpace(named[0]) && SkipSpaces(named) == named;
    assert named[..|action|] == action && named[|action|..] == "(";
    assert SkipSpaces("(") == "(" && "("[..1] == "(" && Lower("(") == "(";
  }
}
