/** The `.env` editor: reading lines, looking a key up, and setting a key. */
module EnvFile {
  import opened Wrappers
  import opened Seqs

  // ---- Whitespace ----

  /** What `String.prototype.trim` removes. */
  predicate IsSpace(c: char) {
    c in "\t\n\r \U{000B}\U{000C}\U{00A0}\U{1680}\U{2028}\U{2029}\U{202F}\U{205F}\U{3000}\U{FEFF}"
    || '\U{2000}' <= c <= '\U{200A}'
  }

  function TrimStart(s: string): string {
    if s == [] || !IsSpace(s[0]) then s else TrimStart(s[1..])
  }

  function TrimEnd(s: string): string {
    if s == [] || !IsSpace(s[|s| - 1]) then s else TrimEnd(s[..|s| - 1])
  }

  function Trim(s: string): string {
    TrimEnd(TrimStart(s))
  }

  predicate StartsWith(s: string, prefix: string) {
    prefix <= s
  }

  // ---- Lines ----

  /** Drops one carriage return, the one that belongs to the line break. */
  function Chomp(line: string): string {
    if line != [] && line[|line| - 1] == '\r' then line[..|line| - 1] else line
  }

  /** The lines once another character is read. */
  function PushChar(before: seq<string>, c: char): (lines: seq<string>)
    requires before != []
    ensures lines != []
  {
    if c == '\n' then before[|before| - 1 := Chomp(before[|before| - 1])] + [""]
    else before[|before| - 1 := before[|before| - 1] + [c]]
  }

  /** `content.split(/\r?\n/)`, from the last line break backwards. */
  function Split(content: string): (lines: seq<string>)
    ensures lines != []
  {
    if content == [] then [""] else PushChar(Split(content[..|content| - 1]), content[|content| - 1])
  }

  /** The lines of a file; None stands for a file that does not exist. */
  function Lines(file: Option<string>): seq<string> {
    if file.None? then [] else
    var lines := Split(file.value);
    if lines[|lines| - 1] == "" then lines[..|lines| - 1] else lines
  }

  /** `lines.join("\n") + "\n"` for at least one line: a line break behind every line. */
  function Join(lines: seq<string>): string {
    if lines == [] then "" else Join(lines[..|lines| - 1]) + lines[|lines| - 1] + "\n"
  }

  // ---- The two operations ----

  function Prefix(key: string): string {
    key + "="
  }

  /** The line that `getEnvVariableFromFile` takes for the key's. */
  predicate Assigns(line: string, key: string) {
    var t := Trim(line);
    t != [] && !StartsWith(t, "#") && StartsWith(t, Prefix(key))
  }

  function NonEmpty(value: string): Option<string> {
    if |value| > 0 then Some(value) else None
  }

  function ValueIn(line: string, key: string): Option<string>
    requires Assigns(line, key)
  {
    NonEmpty(Trim(Trim(line)[|Prefix(key)|..]))
  }

  function Get(lines: seq<string>, key: string): Option<string> {
    if lines == [] then None
    else if Assigns(lines[0], key) then ValueIn(lines[0], key)
    else Get(lines[1..], key)
  }

  method GetEnvVariableFromFile(file: Option<string>, key: string) returns (value: Option<string>)
    ensures value == Get(Lines(file), key)
  {
    if file.None? {
      return None;
    }
    var lines := Lines(file);
    for i := 0 to |lines|
      invariant Get(lines[i..], key) == Get(lines, key)
    {
      var trimmed := Trim(lines[i]);
      assert lines[i..][0] == lines[i] && lines[i..][1..] == lines[i + 1..];
      if |trimmed| == 0 || StartsWith(trimmed, "#") {
        continue;
      }
      if StartsWith(trimmed, Prefix(key)) {
        return NonEmpty(Trim(trimmed[|Prefix(key)|..]));
      }
    }
    return None;
  }

  /** The line that `upsertEnvVariable` overwrites; comments count here. */
  predicate Overwrites(line: string, key: string) {
    StartsWith(TrimStart(line), Prefix(key))
  }

  /** Position of the first such line, or the number of lines. */
  function EntryIndex(lines: seq<string>, key: string): (i: nat)
    ensures i <= |lines|
  {
    if lines == [] || Overwrites(lines[0], key) then 0 else 1 + EntryIndex(lines[1..], key)
  }

  function Upserted(lines: seq<string>, key: string, value: string): seq<string> {
    var i := EntryIndex(lines, key);
    if i < |lines| then lines[i := Prefix(key) + value] else lines + [Prefix(key) + value]
  }

  /** `content` is what the file holds afterwards. */
  method UpsertEnvVariable(file: Option<string>, key: string, value: string) returns (content: string)
    ensures content == Join(Upserted(Lines(file), key, value))
  {
    var lines := Lines(file);
    var entry := Prefix(key) + value;
    var index := 0;
    while index < |lines| && !Overwrites(lines[index], key)
      invariant index <= |lines| && index + EntryIndex(lines[index..], key) == EntryIndex(lines, key)
    {
      assert lines[index..][0] == lines[index] && lines[index..][1..] == lines[index + 1..];
      index := index + 1;
    }
    if index < |lines| {
      assert lines[index..][0] == lines[index];
      lines := lines[index := entry];
    } else {
      lines := lines + [entry];
    }
    return Join(lines);
  }

  // ---- Trimming ----

  lemma {:induction false} TrimStartPush(s: string, c: char)
    ensures TrimStart(s + [c]) == if TrimStart(s) == "" && IsSpace(c) then "" else TrimStart(s) + [c]
  {
    if s == [] {
      assert s + [c] == [c] && [c][1..] == [];
    } else if IsSpace(s[0]) {
      assert (s + [c])[1..] == s[1..] + [c];
      TrimStartPush(s[1..], c);
    }
  }

  lemma TrimDropsLastSpace(s: string, c: char)
    requires IsSpace(c)
    ensures Trim(s + [c]) == Trim(s)
  {
    TrimStartPush(s, c);
    var t := TrimStart(s);
    assert (t + [c])[..|t|] == t;
  }

  lemma TrimChomp(line: string)
    ensures Trim(Chomp(line)) == Trim(line)
  {
    if line != [] && line[|line| - 1] == '\r' {
      assert line == line[..|line| - 1] + ['\r'];
      TrimDropsLastSpace(line[..|line| - 1], '\r');
    }
  }

  lemma {:induction false} TrimAfterTrimEnd(s: string)
    ensures Trim(TrimEnd(s)) == Trim(s)
  {
    if s == [] || !IsSpace(s[|s| - 1]) {
    } else {
      assert s == s[..|s| - 1] + [s[|s| - 1]];
      TrimDropsLastSpace(s[..|s| - 1], s[|s| - 1]);
      TrimAfterTrimEnd(s[..|s| - 1]);
    }
  }

  lemma {:induction false} TrimEndIsPrefix(s: string)
    ensures TrimEnd(s) <= s
  {
    if s == [] || !IsSpace(s[|s| - 1]) {
    } else {
      TrimEndIsPrefix(s[..|s| - 1]);
    }
  }

  lemma {:induction false} TrimEndBehind(p: string, s: string)
    requires p != [] && !IsSpace(p[|p| - 1])
    ensures TrimEnd(p + s) == p + TrimEnd(s)
  {
    if s == [] {
      assert p + s == p;
    } else {
      assert (p + s)[..|p + s| - 1] == p + s[..|s| - 1];
      TrimEndBehind(p, s[..|s| - 1]);
    }
  }

  lemma {:induction false} TrimStartFirst(s: string)
    ensures TrimStart(s) != [] ==> !IsSpace(TrimStart(s)[0])
  {
    if s == [] || !IsSpace(s[0]) {
    } else {
      TrimStartFirst(s[1..]);
    }
  }

  lemma TrimFirst(s: string)
    ensures Trim(s) != [] ==> !IsSpace(Trim(s)[0])
  {
    TrimStartFirst(s);
    TrimEndIsPrefix(TrimStart(s));
  }

  // ---- What is written is read back ----

  ghost predicate NoBreak(s: string) {
    '\n' !in s
  }

  ghost predicate NoBreaks(lines: seq<string>) {
    forall k :: 0 <= k < |lines| ==> NoBreak(lines[k])
  }

  lemma {:induction false} SplitHasNoBreaks(content: string)
    ensures NoBreaks(Split(content))
  {
    if content == [] {
    } else {
      SplitHasNoBreaks(content[..|content| - 1]);
    }
  }

  lemma {:induction false} SplitText(content: string, text: string)
    requires NoBreak(text)
    ensures var before := Split(content);
      Split(content + text) == before[|before| - 1 := before[|before| - 1] + text]
  {
    var before := Split(content);
    if text == [] {
      assert content + text == content && before[|before| - 1] + text == before[|before| - 1];
    } else {
      var n := |text| - 1;
      assert (content + text)[..|content + text| - 1] == content + text[..n];
      SplitText(content, text[..n]);
      assert before[|before| - 1] + text[..n] + [text[n]] == before[|before| - 1] + text;
    }
  }

  lemma SplitBreak(content: string)
    ensures var before := Split(content);
      Split(content + "\n") == before[|before| - 1 := Chomp(before[|before| - 1])] + [""]
  {
    assert (content + "\n")[..|content|] == content;
  }

  /** One more line and its break. */
  lemma SplitLine(content: string, done: seq<string>, line: string)
    requires Split(content) == done + [""] && NoBreak(line)
    ensures Split(content + line + "\n") == done + [Chomp(line)] + [""]
  {
    hide *;
    SplitText(content, line);
    assert "" + line == line;
    assert Split(content + line) == done + [line];
    SplitBreak(content + line);
  }

  lemma {:induction false} SplitJoin(lines: seq<string>)
    requires NoBreaks(lines)
    ensures Split(Join(lines)) == Map(lines, Chomp) + [""]
  {
    if lines == [] {
    } else {
      var init, last := lines[..|lines| - 1], lines[|lines| - 1];
      SplitJoin(init);
      SplitLine(Join(init), Map(init, Chomp), last);
      assert Map(lines, Chomp) == Map(init, Chomp) + [Chomp(last)];
    }
  }

  // ---- What the lines of a file are ----

  /** The white space and line terminators of sections 12.2 and 12.3 of ECMA-262, by code point. */
  lemma SpacesAre(c: char)
    ensures IsSpace(c) <==> c as int in {9, 10, 11, 12, 13, 32, 160, 5760, 8192, 8193, 8194, 8195, 8196, 8197, 8198,
                                         8199, 8200, 8201, 8202, 8232, 8233, 8239, 8287, 12288, 65279}
  {
  }

  /** The text of these lines, each with its line break: a line feed, or a carriage return and a line feed. */
  function TextOf(lines: seq<string>, crlf: seq<bool>): string
    requires |crlf| == |lines|
  {
    if lines == [] then "" else
    var n := |lines| - 1;
    TextOf(lines[..n], crlf[..n]) + lines[n] + if crlf[n] then "\r\n" else "\n"
  }

  /** No line feed in a line, and no carriage return that a line feed right behind it would take. */
  ghost predicate WellEnded(lines: seq<string>, crlf: seq<bool>) {
    && |crlf| == |lines| && NoBreaks(lines)
    && forall k :: 0 <= k < |lines| && !crlf[k] ==> lines[k] == [] || lines[k][|lines[k]| - 1] != '\r'
  }

  lemma {:induction false} SplitTextOf(lines: seq<string>, crlf: seq<bool>)
    requires WellEnded(lines, crlf)
    ensures Split(TextOf(lines, crlf)) == lines + [""]
  {
    if lines == [] {
    } else {
      var n := |lines| - 1;
      SplitTextOf(lines[..n], crlf[..n]);
      SplitEnded(TextOf(lines[..n], crlf[..n]), lines[..n], lines[n], crlf[n]);
      assert lines == lines[..n] + [lines[n]];
    }
  }

  lemma SplitEnded(before: string, done: seq<string>, line: string, crlf: bool)
    requires Split(before) == done + [""] && NoBreak(line) && (!crlf ==> line == [] || line[|line| - 1] != '\r')
    ensures Split(before + line + if crlf then "\r\n" else "\n") == done + [line] + [""]
  {
    hide Split;
    if crlf {
      SplitLine(before, done, line + "\r");
      assert before + (line + "\r") + "\n" == before + line + "\r\n";
      assert (line + "\r")[..|line|] == line;
    } else {
      SplitLine(before, done, line);
    }
  }

  /** A file is its lines: both kinds of line break end one, and text behind the last break is a line too. */
  lemma LinesAre(lines: seq<string>, crlf: seq<bool>, rest: string)
    requires WellEnded(lines, crlf) && NoBreak(rest)
    ensures Lines(Some(TextOf(lines, crlf) + rest)) == if rest == "" then lines else lines + [rest]
  {
    hide Split, TextOf;
    SplitTextOf(lines, crlf);
    SplitText(TextOf(lines, crlf), rest);
    assert "" + rest == rest;
    assert (lines + [""])[|lines| := rest] == lines + [rest];
    assert (lines + [rest])[..|lines|] == lines;
  }

  /** And every file is one of these. */
  lemma {:induction false} EveryFile(content: string) returns (lines: seq<string>, crlf: seq<bool>, rest: string)
    ensures WellEnded(lines, crlf) && NoBreak(rest) && content == TextOf(lines, crlf) + rest
  {
    hide TextOf;
    if content == [] {
      lines, crlf, rest := [], [], "";
      NoLines();
    } else {
      var c := content[|content| - 1];
      lines, crlf, rest := EveryFile(content[..|content| - 1]);
      assert content == content[..|content| - 1] + [c];
      if c != '\n' {
        assert TextOf(lines, crlf) + rest + [c] == TextOf(lines, crlf) + (rest + [c]);
        rest := rest + [c];
      } else {
        var taken := rest != [] && rest[|rest| - 1] == '\r';
        var line := if taken then rest[..|rest| - 1] else rest;
        OneMoreLine(lines, crlf, line, taken);
        BreakTaken(TextOf(lines, crlf), rest);
        lines, crlf, rest := lines + [line], crlf + [taken], "";
      }
    }
  }

  lemma NoLines()
    ensures WellEnded([], []) && TextOf([], []) == ""
  {
  }

  lemma BreakTaken(text: string, rest: string)
    ensures var taken := rest != [] && rest[|rest| - 1] == '\r';
      text + rest + "\n" == text + (if taken then rest[..|rest| - 1] else rest) + (if taken then "\r\n" else "\n") + ""
  {
    if rest != [] && rest[|rest| - 1] == '\r' {
      assert rest == rest[..|rest| - 1] + "\r";
    }
  }

  lemma OneMoreLine(lines: seq<string>, crlf: seq<bool>, line: string, taken: bool)
    requires WellEnded(lines, crlf) && NoBreak(line) && (!taken ==> line == [] || line[|line| - 1] != '\r')
    ensures WellEnded(lines + [line], crlf + [taken])
    ensures TextOf(lines + [line], crlf + [taken]) == TextOf(lines, crlf) + line + if taken then "\r\n" else "\n"
  {
    assert (lines + [line])[..|lines|] == lines && (crlf + [taken])[..|crlf|] == crlf;
  }

  /** What is written has a plain line feed behind every line. */
  lemma {:induction false} JoinEnds(lines: seq<string>)
    ensures Join(lines) == TextOf(lines, seq(|lines|, _ => false))
  {
    if lines == [] {
    } else {
      var n := |lines| - 1;
      JoinEnds(lines[..n]);
      assert seq(|lines|, _ => false)[..n] == seq(n, _ => false);
    }
  }

  // ---- The file after an update ----

  /** The pieces between line feeds. */
  function RawLines(s: string): (lines: seq<string>)
    ensures lines != []
  {
    if s == [] then [""] else
    var before, c := RawLines(s[..|s| - 1]), s[|s| - 1];
    if c == '\n' then before + [""] else before[|before| - 1 := before[|before| - 1] + [c]]
  }

  function FirstLine(s: string): string {
    RawLines(s)[0]
  }

  lemma {:induction false} RawHasNoBreaks(s: string)
    ensures NoBreaks(RawLines(s))
    ensures forall k, c :: 0 <= k < |RawLines(s)| && c in RawLines(s)[k] ==> c in s
  {
    if s == [] {
    } else {
      RawHasNoBreaks(s[..|s| - 1]);
      assert s == s[..|s| - 1] + [s[|s| - 1]];
    }
  }

  /** Text without a line feed goes on the first line. */
  lemma {:induction false} RawBehind(text: string, s: string)
    requires NoBreak(text)
    ensures RawLines(text + s) == [text + FirstLine(s)] + RawLines(s)[1..]
  {
    if s == [] {
      assert text + s == text;
      RawWhole(text);
      assert text + "" == text;
    } else {
      var n := |s| - 1;
      assert (text + s)[..|text + s| - 1] == text + s[..n];
      RawBehind(text, s[..n]);
      RawStep(text, RawLines(s[..n]), s[n]);
    }
  }

  lemma RawStep(text: string, before: seq<string>, c: char)
    requires before != []
    ensures
      var behind := [text + before[0]] + before[1..];
      var next := if c == '\n' then before + [""] else before[|before| - 1 := before[|before| - 1] + [c]];
      (if c == '\n' then behind + [""] else behind[|behind| - 1 := behind[|behind| - 1] + [c]])
      == [text + next[0]] + next[1..]
  {
    if |before| == 1 {
      assert text + before[0] + [c] == text + (before[0] + [c]);
    }
  }

  lemma {:induction false} RawWhole(s: string)
    requires NoBreak(s)
    ensures RawLines(s) == [s]
  {
    if s == [] {
    } else {
      RawWhole(s[..|s| - 1]);
      assert s == s[..|s| - 1] + [s[|s| - 1]];
    }
  }

  lemma {:induction false} JoinBehind(before: seq<string>, more: seq<string>)
    ensures Join(before + more) == Join(before) + Join(more)
  {
    if more == [] {
      assert before + more == before;
    } else {
      var n := |more| - 1;
      assert (before + more)[..|before + more| - 1] == before + more[..n];
      JoinBehind(before, more[..n]);
      assert Join(before) + Join(more[..n]) + more[n] + "\n" == Join(before) + Join(more);
    }
  }

  /** A line that holds line feeds is written as several. */
  lemma {:induction false} RawJoin(s: string)
    ensures Join(RawLines(s)) == s + "\n"
  {
    if s == [] {
      assert [""][..0] == [] && Join([]) == "";
    } else {
      var n := |s| - 1;
      RawJoin(s[..n]);
      JoinStep(RawLines(s[..n]), s[..n], s[n]);
      assert s == s[..n] + [s[n]];
    }
  }

  lemma JoinStep(before: seq<string>, text: string, c: char)
    requires before != [] && Join(before) == text + "\n"
    ensures Join(if c == '\n' then before + [""] else before[|before| - 1 := before[|before| - 1] + [c]])
         == text + [c] + "\n"
  {
    var n := |before| - 1;
    if c == '\n' {
      assert (before + [""])[..n + 1] == before;
      assert Join(before + [""]) == Join(before) + "" + "\n";
    } else {
      var longer := before[n := before[n] + [c]];
      assert longer[..n] == before[..n];
      assert Join(before[..n]) + before[n] == text by {
        assert (Join(before[..n]) + before[n]) + "\n" == text + "\n";
        assert (text + "\n")[..|text|] == text;
      }
      assert Join(longer) == Join(before[..n]) + before[n] + [c] + "\n";
    }
  }

  function Behind(lines: seq<string>, i: nat): seq<string> {
    if i < |lines| then lines[i + 1..] else []
  }

  /** The lines before the entry, the lines of the entry, the lines behind it. */
  function Written(lines: seq<string>, key: string, value: string): seq<string> {
    var i := EntryIndex(lines, key);
    lines[..i] + RawLines(Prefix(key) + value) + Behind(lines, i)
  }

  lemma LinesHaveNoBreaks(file: Option<string>)
    ensures NoBreaks(Lines(file))
  {
    if file.Some? {
      SplitHasNoBreaks(file.value);
    }
  }

  /** The file after an update, read again: each of those lines, less a stray carriage return at its
      end. An entry without a line feed is one line. */
  lemma RereadUpserted(file: Option<string>, key: string, value: string)
    ensures Lines(Some(Join(Upserted(Lines(file), key, value)))) == Map(Written(Lines(file), key, value), Chomp)
    ensures NoBreak(key) && NoBreak(value) ==> Written(Lines(file), key, value) == Upserted(Lines(file), key, value)
  {
    hide Lines, Split, Chomp, Join, RawLines;
    var lines, entry := Lines(file), Prefix(key) + value;
    var i := EntryIndex(lines, key);
    LinesHaveNoBreaks(file);
    RawHasNoBreaks(entry);
    SameText(lines[..i], entry, Behind(lines, i));
    assert Upserted(lines, key, value) == lines[..i] + [entry] + Behind(lines, i);
    LinesOfJoin(Written(lines, key, value));
    if NoBreak(key) && NoBreak(value) {
      RawWhole(entry);
    }
  }

  lemma SameText(before: seq<string>, entry: string, after: seq<string>)
    ensures Join(before + [entry] + after) == Join(before + RawLines(entry) + after)
  {
    RawJoin(entry);
    assert [entry][..0] == [] && Join([]) == "" && Join([entry]) == entry + "\n";
    hide Join, RawLines;
    JoinBehind(before + [entry], after);
    JoinBehind(before + RawLines(entry), after);
    JoinBehind(before, [entry]);
    JoinBehind(before, RawLines(entry));
  }

  lemma LinesOfJoin(lines: seq<string>)
    requires NoBreaks(lines)
    ensures Lines(Some(Join(lines))) == Map(lines, Chomp)
  {
    hide Split, Join, Chomp;
    SplitJoin(lines);
    assert (Map(lines, Chomp) + [""])[..|lines|] == Map(lines, Chomp);
  }

  lemma {:induction false} GetChomped(lines: seq<string>, key: string)
    ensures Get(Map(lines, Chomp), key) == Get(lines, key)
  {
    if lines == [] {
    } else {
      TrimChomp(lines[0]);
      assert Map(lines, Chomp)[1..] == Map(lines[1..], Chomp);
      GetChomped(lines[1..], key);
    }
  }

  function ReadBack(file: Option<string>, key: string, value: string, other: string): Option<string> {
    Get(Lines(Some(Join(Upserted(Lines(file), key, value)))), other)
  }

  lemma ReadWritten(file: Option<string>, key: string, value: string, other: string)
    ensures ReadBack(file, key, value, other) == Get(Written(Lines(file), key, value), other)
  {
    hide *;
    RereadUpserted(file, key, value);
    GetChomped(Written(Lines(file), key, value), other);
    Reading(file, key, value, other);
  }

  lemma Reading(file: Option<string>, key: string, value: string, other: string)
    ensures ReadBack(file, key, value, other) == Get(Lines(Some(Join(Upserted(Lines(file), key, value)))), other)
  {
  }

  /** Some line assigns the key. */
  predicate Sets(lines: seq<string>, key: string) {
    exists k :: 0 <= k < |lines| && Assigns(lines[k], key)
  }

  lemma {:induction false} GetAppend(a: seq<string>, b: seq<string>, key: string)
    ensures Get(a + b, key) == if Sets(a, key) then Get(a, key) else Get(b, key)
    ensures !Sets(a, key) ==> Get(a, key) == None
  {
    hide Assigns, ValueIn;
    if a == [] {
      assert a + b == b;
    } else {
      assert (a + b)[0] == a[0] && (a + b)[1..] == a[1..] + b;
      GetAppend(a[1..], b, key);
      SetsFirst(a, key);
    }
  }

  lemma SetsFirst(lines: seq<string>, key: string)
    requires lines != []
    ensures Sets(lines, key) <==> Assigns(lines[0], key) || Sets(lines[1..], key)
  {
    hide Assigns;
    if k :| 0 <= k < |lines[1..]| && Assigns(lines[1..][k], key) {
      assert lines[k + 1] == lines[1..][k];
    }
    if k :| 0 < k < |lines| && Assigns(lines[k], key) {
      assert lines[1..][k - 1] == lines[k];
    }
  }

  // ---- Round trip ----

  /** The key does not start with whitespace or a comment sign. */
  predicate Findable(key: string) {
    key != [] ==> !IsSpace(key[0]) && key[0] != '#'
  }

  lemma PrefixEnds(key: string)
    ensures Prefix(key) != [] && Prefix(key)[|Prefix(key)| - 1] == '=' && !IsSpace('=')
  {
  }

  /** For a findable key, the line to overwrite is the line that is read. */
  lemma OverwritesIsAssigns(line: string, key: string)
    requires Findable(key)
    ensures Overwrites(line, key) <==> Assigns(line, key)
  {
    var t, p := TrimStart(line), Prefix(key);
    PrefixEnds(key);
    TrimEndIsPrefix(t);
    if p <= t {
      assert t == p + t[|p|..];
      TrimEndBehind(p, t[|p|..]);
      assert p <= TrimEnd(t);
      assert p[0] == if key == [] then '=' else key[0];
    }
  }

  lemma EntryIsRead(key: string, value: string)
    requires Findable(key)
    ensures var entry := Prefix(key) + value;
      Assigns(entry, key) && ValueIn(entry, key) == NonEmpty(Trim(value))
  {
    var p, entry := Prefix(key), Prefix(key) + value;
    PrefixEnds(key);
    assert entry[0] == if key == [] then '=' else key[0];
    assert TrimStart(entry) == entry;
    TrimEndBehind(p, value);
    OverwritesIsAssigns(entry, key);
    assert Trim(entry)[|p|..] == TrimEnd(value);
    TrimAfterTrimEnd(value);
  }

  /** A key that starts with whitespace or a comment sign is never found. */
  lemma {:induction false} NeverFound(lines: seq<string>, key: string)
    requires !Findable(key)
    ensures Get(lines, key) == None
  {
    if lines == [] {
    } else {
      TrimFirst(lines[0]);
      assert Prefix(key)[0] == key[0];
      assert key[0] == '#' ==> Prefix(key)[..1] == "#";
      assert StartsWith(Trim(lines[0]), Prefix(key)) ==> Trim(lines[0])[0] == key[0];
      NeverFound(lines[1..], key);
    }
  }

  lemma {:induction false} NoneBefore(lines: seq<string>, key: string, i: nat)
    requires i < EntryIndex(lines, key)
    ensures !Overwrites(lines[i], key)
  {
    if i == 0 {
    } else {
      NoneBefore(lines[1..], key, i - 1);
    }
  }

  /** No line of a file holds a line break, so a key that does is never found. */
  lemma {:induction false} BrokenKeyNotFound(lines: seq<string>, key: string)
    requires NoBreaks(lines) && !NoBreak(key)
    ensures Get(lines, key) == None
  {
    if lines == [] {
    } else {
      KeyInLine(lines[0], key);
      BrokenKeyNotFound(lines[1..], key);
    }
  }

  lemma KeyInLine(line: string, key: string)
    ensures Assigns(line, key) ==> forall c :: c in key ==> c in line
  {
    TrimKeeps(line);
    if Assigns(line, key) {
      forall c | c in key ensures c in line {
        var k :| 0 <= k < |key| && key[k] == c;
        assert Trim(line)[k] == Prefix(key)[k] == c;
      }
    }
  }

  lemma TrimKeeps(s: string)
    ensures forall c :: c in Trim(s) ==> c in s
  {
    TrimStartIsSuffix(s);
    TrimEndIsPrefix(TrimStart(s));
  }

  lemma {:induction false} TrimStartIsSuffix(s: string)
    ensures |TrimStart(s)| <= |s| && TrimStart(s) == s[|s| - |TrimStart(s)|..]
  {
    if s == [] || !IsSpace(s[0]) {
    } else {
      TrimStartIsSuffix(s[1..]);
    }
  }

  /** Reading after setting yields the trimmed value (nothing, if that is empty) exactly when the key
      does not start with whitespace or a comment sign, holds no line break, and the value is blank
      behind its own first line break; or when the value is blank. */
  lemma RoundTrip(file: Option<string>, key: string, value: string)
    ensures ReadBack(file, key, value, key) == NonEmpty(Trim(value))
       <==> (Findable(key) && NoBreak(key) && Trim(FirstLine(value)) == Trim(value)) || Trim(value) == ""
  {
    hide *;
    if Findable(key) && NoBreak(key) {
      ReadBackFirstLine(file, key, value);
      BlankFirstLine(value);
      NonEmptyInjective(Trim(value), Trim(FirstLine(value)));
    } else {
      NotReadBack(file, key, value);
      NonEmptyInjective(Trim(value), "");
    }
  }

  lemma NonEmptyInjective(a: string, b: string)
    ensures NonEmpty(a) == NonEmpty(b) <==> a == b
    ensures NonEmpty("") == None
  {
  }

  lemma NotReadBack(file: Option<string>, key: string, value: string)
    requires !Findable(key) || !NoBreak(key)
    ensures ReadBack(file, key, value, key) == None
  {
    var content := Join(Upserted(Lines(file), key, value));
    if !Findable(key) {
      NeverFound(Lines(Some(content)), key);
    } else {
      LinesHaveNoBreaks(Some(content));
      BrokenKeyNotFound(Lines(Some(content)), key);
    }
  }

  lemma ReadBackFirstLine(file: Option<string>, key: string, value: string)
    requires Findable(key) && NoBreak(key)
    ensures ReadBack(file, key, value, key) == NonEmpty(Trim(FirstLine(value)))
  {
    hide Overwrites, Assigns, Findable, RawLines, ReadBack, Lines;
    var lines, first := Lines(file), Prefix(key) + FirstLine(value);
    var i := EntryIndex(lines, key);
    ReadWritten(file, key, value, key);
    EntryLines(key, value);
    forall k | 0 <= k < i ensures !Assigns(lines[..i][k], key) {
      NoneBefore(lines, key, k);
      OverwritesIsAssigns(lines[k], key);
    }
    var rest := RawLines(value)[1..] + Behind(lines, i);
    assert Written(lines, key, value) == lines[..i] + ([first] + rest);
    GetAppend(lines[..i], [first] + rest, key);
    EntryIsRead(key, FirstLine(value));
    assert ([first] + rest)[0] == first;
  }

  lemma EntryLines(key: string, value: string)
    requires NoBreak(key)
    ensures RawLines(Prefix(key) + value) == [Prefix(key) + FirstLine(value)] + RawLines(value)[1..]
  {
    RawBehind(Prefix(key), value);
  }

  lemma BlankFirstLine(value: string)
    ensures Trim(value) == "" ==> Trim(FirstLine(value)) == ""
  {
    hide RawLines;
    if Trim(value) == "" {
      BlankIsSpace(value);
      RawHasNoBreaks(value);
      SpaceIsBlank(FirstLine(value));
    }
  }

  ghost predicate AllSpace(s: string) {
    forall c :: c in s ==> IsSpace(c)
  }

  lemma {:induction false} BlankIsSpace(s: string)
    requires Trim(s) == ""
    ensures AllSpace(s)
  {
    if s == [] {
    } else if IsSpace(s[0]) {
      BlankIsSpace(s[1..]);
    } else {
      FirstVisible(s);
    }
  }

  lemma FirstVisible(s: string)
    requires s != [] && !IsSpace(s[0])
    ensures Trim(s) != ""
  {
    TrimEndBehind([s[0]], s[1..]);
    assert s == [s[0]] + s[1..];
  }

  lemma {:induction false} SpaceIsBlank(s: string)
    requires AllSpace(s)
    ensures Trim(s) == ""
  {
    if s == [] {
    } else {
      assert s[0] in s;
      SpaceIsBlank(s[1..]);
    }
  }

  // ---- Frame ----

  /** The text before the first equals sign. */
  function Head(s: string): (r: string)
    ensures r <= s && '=' !in r
  {
    if s == [] || s[0] == '=' then [] else [s[0]] + Head(s[1..])
  }

  lemma {:induction false} HeadEnds(s: string, rest: string)
    ensures Head(s + "=" + rest) == Head(s) && Prefix(Head(s)) <= s + "=" + rest
    ensures Head(s) == s <==> '=' !in s
  {
    if s == [] {
      assert (s + "=" + rest)[0] == '=';
    } else if s[0] == '=' {
    } else {
      assert (s + "=" + rest)[1..] == s[1..] + "=" + rest;
      HeadEnds(s[1..], rest);
      assert Prefix(Head(s)) == [s[0]] + Prefix(Head(s[1..]));
      assert s + "=" + rest == [s[0]] + (s[1..] + "=" + rest);
    }
  }

  lemma PrefixesDiffer(t: string, a: string, b: string)
    requires '=' !in a && '=' !in b && Prefix(a) <= t && Prefix(b) <= t
    ensures a == b
  {
    assert Prefix(a)[|a|] == '=' && Prefix(b)[|b|] == '=';
    assert t[|a|] == '=' && t[|b|] == '=';
    assert forall k :: 0 <= k < |a| ==> t[k] == Prefix(a)[k] == a[k] && a[k] in a;
    assert forall k :: 0 <= k < |b| ==> t[k] == Prefix(b)[k] == b[k] && b[k] in b;
    assert |a| == |b|;
  }

  predicate IsComment(line: string) {
    StartsWith(TrimStart(line), "#")
  }

  lemma CommentAssignsNothing(line: string, other: string)
    requires IsComment(line)
    ensures !Assigns(line, other)
  {
    var t := TrimStart(line);
    TrimEndIsPrefix(t);
    assert Trim(line) != [] ==> Trim(line)[0] == '#' && "#" <= Trim(line);
  }

  lemma {:induction false} TrimStartAppend(s: string, more: string)
    ensures TrimStart(s + more) == if TrimStart(s) == "" then TrimStart(more) else TrimStart(s) + more
  {
    if s == [] {
      assert s + more == more;
    } else if IsSpace(s[0]) {
      assert (s + more)[1..] == s[1..] + more;
      TrimStartAppend(s[1..], more);
    }
  }

  /** Behind its leading whitespace the entry's line starts as the key does. */
  lemma EntryTrimmed(key: string, value: string)
    ensures TrimStart(Prefix(key) + value) == TrimStart(key) + "=" + value
  {
    hide *;
    EntryParts(key, value);
    TrimStartAppend(key, "=" + value);
    assert TrimStart(key) + ("=" + value) == TrimStart(key) + "=" + value;
  }

  lemma EntryParts(key: string, value: string)
    ensures Prefix(key) + value == key + ("=" + value)
    ensures TrimStart("=" + value) == "=" + value
  {
    assert ("=" + value)[0] == '=';
  }

  lemma CommentsOnly(key: string, value: string, other: string)
    requires IsComment(key)
    ensures !Assigns(Prefix(key) + value, other)
    ensures forall line :: Overwrites(line, key) ==> !Assigns(line, other)
  {
    EntryTrimmed(key, value);
    CommentAssignsNothing(Prefix(key) + value, other);
    forall line | Overwrites(line, key) ensures !Assigns(line, other) {
      TrimStartFirst(line);
      assert TrimStart(line)[0] == Prefix(key)[0] == key[0];
      CommentAssignsNothing(line, other);
    }
  }

  lemma NameOnly(key: string, value: string, other: string)
    requires '=' !in key && (key == [] || !IsSpace(key[0])) && '=' !in other && key != other
    ensures !Assigns(Prefix(key) + value, other)
    ensures forall line :: Overwrites(line, key) ==> !Assigns(line, other)
  {
    TrimStartIsSuffix(key);
    EntryTrimmed(key, value);
    assert TrimStart(key) == key;
    assert Overwrites(Prefix(key) + value, key);
    forall line | Overwrites(line, key) ensures !Assigns(line, other) {
      TrimEndIsPrefix(TrimStart(line));
      if Prefix(other) <= TrimStart(line) {
        PrefixesDiffer(TrimStart(line), key, other);
      }
    }
  }

  /** The name that a line assigns, if it assigns one. */
  function AssignedName(line: string): Option<string> {
    var t := Trim(line);
    if t == [] || StartsWith(t, "#") || '=' !in t then None else Some(Head(t))
  }

  lemma {:induction false} HeadPrefix(s: string)
    requires '=' in s
    ensures Prefix(Head(s)) <= s
  {
    if s[0] == '=' {
    } else {
      HeadPrefix(s[1..]);
      assert Prefix(Head(s)) == [s[0]] + Prefix(Head(s[1..])) && s == [s[0]] + s[1..];
    }
  }

  lemma AssignsName(line: string, name: string)
    requires '=' !in name
    ensures Assigns(line, name) <==> AssignedName(line) == Some(name)
  {
    hide Trim, Head;
    var t := Trim(line);
    if Prefix(name) <= t {
      assert t == name + "=" + t[|Prefix(name)|..] && '=' in t;
      HeadEnds(name, t[|Prefix(name)|..]);
    }
    if '=' in t {
      HeadPrefix(t);
    }
  }

  /** A name that some line assigns is trimmed in front, no comment, and holds no equals sign and no
      character from outside the line. */
  lemma AssignedNameIs(line: string)
    requires AssignedName(line).Some?
    ensures var name := AssignedName(line).value;
      Findable(name) && '=' !in name && forall c :: c in name ==> c in line
  {
    TrimFirst(line);
    TrimKeeps(line);
    var t := Trim(line);
    assert t[0] == '#' ==> "#" <= t;
  }

  /** Setting the key may overwrite a line: a line holds no line break, and is trimmed in front. */
  predicate Overwritable(key: string) {
    '\n' !in key && (key == [] || !IsSpace(key[0]))
  }

  /** No other name can change. A key that may overwrite a line must be a plain name or make its line a
      comment, and none of the value's further lines may assign another name. A key that only ever
      appends must not give any name a value. */
  predicate Harmless(key: string, value: string) {
    var lines := RawLines(Prefix(key) + value);
    if Overwritable(key) then
      && (IsComment(key) || '=' !in key)
      && forall k :: 0 < k < |lines| ==> AssignedName(lines[k]) in {None, Some(key)}
    else
      forall k :: 0 <= k < |lines| && AssignedName(lines[k]).Some? ==> Get(lines, AssignedName(lines[k]).value) == None
  }

  /** Setting the key to the value leaves every other name alone, in every file. */
  ghost predicate Isolated(key: string, value: string) {
    forall file, other | '=' !in other && other != key :: ReadBack(file, key, value, other) == Get(Lines(file), other)
  }

  lemma FirstIsSilent(key: string, value: string, other: string)
    requires Overwritable(key) && (IsComment(key) || '=' !in key) && '=' !in other && key != other
    ensures !Assigns(Prefix(key) + value, other)
    ensures forall line :: Overwrites(line, key) ==> !Assigns(line, other)
  {
    hide Assigns, Overwrites, IsComment;
    if IsComment(key) {
      CommentsOnly(key, value, other);
    } else {
      NameOnly(key, value, other);
    }
  }

  lemma NeverOverwrites(lines: seq<string>, key: string)
    requires !Overwritable(key) && NoBreaks(lines)
    ensures EntryIndex(lines, key) == |lines|
  {
    if lines == [] {
    } else {
      NeverOverwrites(lines[1..], key);
      OverwritesNeeds(lines[0], key);
    }
  }

  lemma OverwritesNeeds(line: string, key: string)
    requires NoBreak(line)
    ensures Overwrites(line, key) ==> Overwritable(key)
  {
    if Overwrites(line, key) {
      TrimStartFirst(line);
      TrimStartIsSuffix(line);
      assert TrimStart(line)[0] == Prefix(key)[0];
      assert forall k :: 0 <= k < |key| ==> key[k] == Prefix(key)[k] == TrimStart(line)[k];
    }
  }

  lemma {:induction false} EntryFound(lines: seq<string>, key: string)
    ensures var i := EntryIndex(lines, key); i < |lines| ==> Overwrites(lines[i], key)
  {
    if lines == [] || Overwrites(lines[0], key) {
    } else {
      EntryFound(lines[1..], key);
    }
  }

  /** Setting a harmless key and value leaves every other name's value alone. */
  lemma OtherKeysUnchanged(file: Option<string>, key: string, value: string, other: string)
    requires Harmless(key, value) && '=' !in other && key != other
    ensures ReadBack(file, key, value, other) == Get(Lines(file), other)
  {
    hide *;
    ReadWritten(file, key, value, other);
    LinesHaveNoBreaks(file);
    if Overwritable(key) {
      InPlace(Lines(file), key, value, other);
    } else {
      Appended(Lines(file), key, value, other);
    }
  }

  lemma InPlace(lines: seq<string>, key: string, value: string, other: string)
    requires Overwritable(key) && Harmless(key, value) && '=' !in other && key != other
    ensures Get(Written(lines, key, value), other) == Get(lines, other)
  {
    hide Assigns, Overwrites, AssignedName, Get, RawLines, IsComment;
    var i, raw := EntryIndex(lines, key), RawLines(Prefix(key) + value);
    var before, after := lines[..i], Behind(lines, i);
    EntryLines(key, value);
    FirstIsSilent(key, FirstLine(value), other);
    forall k | 0 <= k < |raw| ensures !Assigns(raw[k], other) {
      AssignsName(raw[k], other);
    }
    assert before + raw + after == before + (raw + after);
    GetAppend(before, raw + after, other);
    GetAppend(raw, after, other);
    EntryFound(lines, key);
    if i < |lines| {
      assert lines == before + ([lines[i]] + after);
      GetAppend(before, [lines[i]] + after, other);
      GetAppend([lines[i]], after, other);
    } else {
      assert lines == before + after;
      GetAppend(before, after, other);
    }
  }

  lemma Appended(lines: seq<string>, key: string, value: string, other: string)
    requires !Overwritable(key) && Harmless(key, value) && NoBreaks(lines) && '=' !in other
    ensures Get(Written(lines, key, value), other) == Get(lines, other)
  {
    hide Assigns, AssignedName, RawLines;
    var raw := RawLines(Prefix(key) + value);
    NeverOverwrites(lines, key);
    assert Written(lines, key, value) == lines + raw;
    GetAppend(lines, raw, other);
    GetAppend(raw, [], other);
    if Sets(raw, other) {
      var k :| 0 <= k < |raw| && Assigns(raw[k], other);
      AssignsName(raw[k], other);
    } else {
      assert raw + [] == raw;
    }
  }

  // ---- Where another name changes ----

  /** Any other key and value change another name in some file. */
  lemma LeakOf(key: string, value: string) returns (file: Option<string>, other: string)
    requires !Harmless(key, value)
    ensures '=' !in other && other != key && ReadBack(file, key, value, other) != Get(Lines(file), other)
  {
    hide Assigns, AssignedName, RawLines, Get, IsComment, ReadBack, Written, Lines;
    var raw := RawLines(Prefix(key) + value);
    RawHasNoBreaks(Prefix(key) + value);
    if !Overwritable(key) {
      var k :| 0 <= k < |raw| && AssignedName(raw[k]).Some? && Get(raw, AssignedName(raw[k]).value) != None;
      file, other := None, AssignedName(raw[k]).value;
      AssignedNameIs(raw[k]);
      IntoNothing(key, value, other);
    } else if !IsComment(key) && '=' in key {
      file, other := None, Head(key);
      HeadLeaks(key, value);
    } else {
      var k :| 0 < k < |raw| && AssignedName(raw[k]) !in {None, Some(key)};
      other := AssignedName(raw[k]).value;
      AssignedNameIs(raw[k]);
      AssignsName(raw[k], other);
      file := OverwrittenFile(key, value, other);
    }
  }

  lemma IntoNothing(key: string, value: string, other: string)
    ensures ReadBack(None, key, value, other) == Get(RawLines(Prefix(key) + value), other)
    ensures Get(Lines(None), other) == None
  {
    hide RawLines, Assigns;
    ReadWritten(None, key, value, other);
    assert Written([], key, value) == RawLines(Prefix(key) + value);
  }

  lemma FirstSets(raw: seq<string>, name: string)
    requires raw != [] && Assigns(raw[0], name)
    ensures Get(raw, name) == ValueIn(raw[0], name)
  {
  }

  /** An equals sign in the key. */
  lemma HeadLeaks(key: string, value: string)
    requires Overwritable(key) && !IsComment(key) && '=' in key
    ensures Head(key) != key && ReadBack(None, key, value, Head(key)).Some? && Get(Lines(None), Head(key)) == None
  {
    hide RawLines, Get, ReadBack;
    var first, other := Prefix(key) + FirstLine(value), Head(key);
    assert TrimStart(key) == key;
    var rest := (key + "=" + FirstLine(value))[|Prefix(other)|..];
    HeadEnds(key, FirstLine(value));
    HeadPrefix(key);
    assert rest[|key| - |Prefix(other)|] == '=';
    SignIsVisible(rest);
    EntryTrimmed(key, FirstLine(value));
    NotComment(key, FirstLine(value));
    ReadAlone(first, other, rest);
    IntoNothing(key, value, other);
    EntryLines(key, value);
    OnlyFirst(RawLines(Prefix(key) + value), first, other);
  }

  lemma SignIsVisible(s: string)
    requires '=' in s
    ensures Trim(s) != ""
  {
    if Trim(s) == "" {
      BlankIsSpace(s);
    }
  }

  lemma OnlyFirst(raw: seq<string>, first: string, name: string)
    requires raw != [] && raw[0] == first && Get([first], name).Some?
    ensures Get(raw, name) == Get([first], name)
  {
    assert [first][1..] == [];
  }

  /** A file in which the key's own line stands before one that assigns the other name. */
  lemma OverwrittenFile(key: string, value: string, other: string) returns (file: Option<string>)
    requires Overwritable(key) && (IsComment(key) || '=' !in key) && '=' !in other && other != key
    requires Findable(other) && NoBreak(other) && Sets(RawLines(Prefix(key) + value), other)
    ensures ReadBack(file, key, value, other) != Get(Lines(file), other)
  {
    hide RawLines, Assigns, ReadBack, Get, IsComment, Join, Lines, Written, Sets;
    var raw := RawLines(Prefix(key) + value);
    var text := if Get(raw, other) == Some("x") then "y" else "x";
    var lines := [Prefix(key), Prefix(other) + text];
    file := Some(Join(lines));
    TwoLines(key, other, text);
    ReadWritten(file, key, value, other);
    OverwritesFirst(key, value, Prefix(other) + text);
    GetAppend(raw, [Prefix(other) + text], other);
    FirstIsSilent(key, "", other);
    assert Prefix(key) + "" == Prefix(key);
    ReadsSecond(Prefix(key), other, text);
  }

  lemma TwoLines(key: string, other: string, text: string)
    requires NoBreak(key) && NoBreak(other) && text in ["x", "y"]
    ensures var lines := [Prefix(key), Prefix(other) + text]; Lines(Some(Join(lines))) == lines
  {
    hide Join, Lines;
    var lines := [Prefix(key), Prefix(other) + text];
    LinesOfJoin(lines);
    assert Map(lines, Chomp) == lines;
  }

  lemma OverwritesFirst(key: string, value: string, second: string)
    requires Overwritable(key)
    ensures Written([Prefix(key), second], key, value) == RawLines(Prefix(key) + value) + [second]
  {
    hide RawLines;
    assert Prefix(key)[0] == if key == [] then '=' else key[0];
    assert Overwrites(Prefix(key), key);
    var lines := [Prefix(key), second];
    assert EntryIndex(lines, key) == 0 && lines[..0] == [] && Behind(lines, 0) == [second];
  }

  lemma ReadsSecond(first: string, other: string, text: string)
    requires !Assigns(first, other) && Findable(other) && text in ["x", "y"]
    ensures Get([first, Prefix(other) + text], other) == Some(text)
  {
    hide Assigns, Trim;
    EntryIsRead(other, text);
    PlainText(text);
    SecondLine(first, Prefix(other) + text, other);
  }

  lemma PlainText(text: string)
    requires text in ["x", "y"]
    ensures Trim(text) == text != ""
  {
    assert !IsSpace('x') && !IsSpace('y');
  }

  lemma SecondLine(first: string, second: string, name: string)
    requires !Assigns(first, name)
    ensures Get([first, second], name) == Get([second], name)
  {
    hide Assigns, Trim;
    assert [first, second][1..] == [second];
  }

  /** Setting leaves every other name alone exactly for the harmless keys and values. */
  lemma IsolatedIff(key: string, value: string)
    ensures Isolated(key, value) <==> Harmless(key, value)
  {
    hide ReadBack, Harmless, Get, Lines;
    if Harmless(key, value) {
      forall file, other | '=' !in other && other != key
        ensures ReadBack(file, key, value, other) == Get(Lines(file), other) {
        OtherKeysUnchanged(file, key, value, other);
      }
    } else {
      var file, other := LeakOf(key, value);
    }
  }

  /** In an empty file, a key sets the name in front of its first equals sign, leading whitespace
      dropped: to the first line of the value if the key has no equals sign. */
  lemma Leaks(key: string, value: string)
    requires NoBreak(key) && !IsComment(key) && Trim(FirstLine(value)) != ""
    ensures ReadBack(None, key, value, Head(TrimStart(key))).Some?
    ensures '=' !in key ==> ReadBack(None, key, value, TrimStart(key)) == Some(Trim(FirstLine(value)))
  {
    hide *;
    var text := FirstLine(value);
    var entry, start, other := Prefix(key) + text, TrimStart(key), Head(TrimStart(key));
    EntryTrimmed(key, text);
    HeadEnds(start, text);
    var rest := (start + "=" + text)[|Prefix(other)|..];
    assert start + "=" + text == Prefix(other) + rest;
    StillThere(start, text, other, rest);
    NotComment(key, text);
    ReadAlone(entry, other, rest);
    EntryLines(key, value);
    OnlyFirst(RawLines(Prefix(key) + value), entry, other);
    IntoNothing(key, value, other);
    if '=' !in key {
      NoSignInside(key);
      BehindPrefix(start, text);
    }
  }

  lemma BehindPrefix(start: string, value: string)
    ensures (start + "=" + value)[|Prefix(start)|..] == value
  {
  }

  lemma NoSignInside(key: string)
    requires '=' !in key
    ensures Head(TrimStart(key)) == TrimStart(key)
  {
    TrimStartIsSuffix(key);
    HeadEnds(TrimStart(key), "");
  }

  lemma NotComment(key: string, value: string)
    requires !IsComment(key)
    ensures !IsComment(Prefix(key) + value)
  {
    EntryTrimmed(key, value);
    var t := TrimStart(key) + "=" + value;
    assert t[0] == if TrimStart(key) == "" then '=' else TrimStart(key)[0];
  }

  lemma ReadAlone(line: string, other: string, rest: string)
    requires TrimStart(line) == Prefix(other) + rest && !IsComment(line) && Trim(rest) != ""
    ensures Get([line], other) == Some(Trim(rest))
  {
    PrefixEnds(other);
    TrimEndBehind(Prefix(other), rest);
    TrimAfterTrimEnd(rest);
    assert Trim(line) == Prefix(other) + TrimEnd(rest);
    assert Trim(line)[|Prefix(other)|..] == TrimEnd(rest);
  }

  /** A value that is not blank is not blank behind more text either. */
  lemma StillThere(start: string, value: string, other: string, rest: string)
    requires start + "=" + value == Prefix(other) + rest && other <= start && Trim(value) != ""
    ensures Trim(rest) != ""
  {
    hide TrimStart, TrimEnd;
    var before, prefix := start + "=", Prefix(other);
    if Trim(rest) == "" {
      BlankIsSpace(rest);
      assert value == (before + value)[|before|..] == (prefix + rest)[|before|..] == rest[|before| - |prefix|..];
      SpaceIsBlank(value);
    }
  }
}
