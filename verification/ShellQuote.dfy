/** Quoting a session id for the shell, read back by the shell's own rules. */
module ShellQuote {
  import opened Wrappers
  import opened Text

  predicate IsPlain(c: char) {
    || 'a' <= c <= 'z' || 'A' <= c <= 'Z' || '0' <= c <= '9'
    || c == '-' || c == '_' || c == '.' || c == '/' || c == ':' || c == '='
  }

  predicate AllPlain(s: string) {
    forall i :: 0 <= i < |s| ==> IsPlain(s[i])
  }

  /** Every single quote becomes quote, backslash, quote, quote. */
  function EscapeQuotes(s: string): string {
    if s == "" then "" else (if s[0] == '\'' then "'\\''" else [s[0]]) + EscapeQuotes(s[1..])
  }

  function Quote(s: string): string {
    if AllPlain(s) then s else "'" + EscapeQuotes(s) + "'"
  }

  // ---- reading words ----

  /** Unquoted, these characters mean something to the shell, always or in some places (section 2.2). */
  predicate IsSpecial(c: char) {
    || c == '|' || c == '&' || c == ';' || c == '<' || c == '>' || c == '(' || c == ')' || c == '$' || c == '`'
    || c == '\\' || c == '"' || c == '\'' || c == ' ' || c == '\t' || c == '\n' || c == '*' || c == '?' || c == '['
    || c == ']' || c == '#' || c == '~' || c == '%' || c == '!' || c == '{' || c == '}'
  }

  lemma PlainIsNotSpecial(c: char)
    requires IsPlain(c)
    ensures !IsSpecial(c)
  {
  }

  datatype Mode = Between | InWord(word: string) | Quoted(word: string) | Escaped(word: string)

  /** The words of a simple command after quote removal (sections 2.2.1 and 2.2.2 of the Shell Command
      Language). None for an unfinished quote and for any unquoted character with a meaning of its own. */
  function ReadWords(s: string, mode: Mode): Option<seq<string>> {
    if s == "" then
      match mode
      case Between => Some([])
      case InWord(word) => Some([word])
      case _ => None
    else
      var c, rest := s[0], s[1..];
      match mode
      case Quoted(word) => ReadWords(rest, if c == '\'' then InWord(word) else Quoted(word + [c]))
      // A backslash before a newline disappears with it.
      case Escaped(word) => ReadWords(rest, InWord(if c == '\n' then word else word + [c]))
      case Between =>
        if c == ' ' || c == '\t' then ReadWords(rest, Between)
        else if c == '\'' then ReadWords(rest, Quoted(""))
        else if c == '\\' then ReadWords(rest, Escaped(""))
        else if IsSpecial(c) then None
        else ReadWords(rest, InWord([c]))
      case InWord(word) =>
        if c == ' ' || c == '\t' then
          match ReadWords(rest, Between)
          case None => None
          case Some(words) => Some([word] + words)
        else if c == '\'' then ReadWords(rest, Quoted(word))
        else if c == '\\' then ReadWords(rest, Escaped(word))
        else if IsSpecial(c) then None
        else ReadWords(rest, InWord(word + [c]))
  }

  /** The rules for one character outside quotes: blanks end a word, a quote and a backslash protect what follows, a
      backslash and a newline vanish, and any other special character is refused. */
  lemma ShellRules(c: char, rest: string, word: string)
    ensures ReadWords([c] + rest, Between) ==
            if c == ' ' || c == '\t' then ReadWords(rest, Between)
            else if c == '\'' then ReadWords(rest, Quoted(""))
            else if c == '\\' then ReadWords(rest, Escaped(""))
            else if IsSpecial(c) then None
            else ReadWords(rest, InWord([c]))
    ensures c == ' ' || c == '\t' ==>
              ReadWords([c] + rest, InWord(word)) ==
              if ReadWords(rest, Between) == None then None else Some([word] + ReadWords(rest, Between).value)
    ensures c != ' ' && c != '\t' && c != '\'' && c != '\\' && IsSpecial(c) ==>
              ReadWords([c] + rest, InWord(word)) == None
    ensures ReadWords([c] + rest, Escaped(word)) == ReadWords(rest, InWord(word + if c == '\n' then "" else [c]))
  {
    assert ([c] + rest)[1..] == rest && word + "" == word;
  }

  lemma {:induction false} PlainIsRead(s: string, rest: string, word: string)
    requires AllPlain(s)
    ensures ReadWords(s + rest, InWord(word)) == ReadWords(rest, InWord(word + s))
    decreases |s|
  {
    if s == "" {
      assert s + rest == rest && word + s == word;
    } else {
      PlainIsNotSpecial(s[0]);
      hide IsSpecial;
      assert (s + rest)[1..] == s[1..] + rest;
      PlainIsRead(s[1..], rest, word + [s[0]]);
      assert word + [s[0]] + s[1..] == word + s;
    }
  }

  lemma QuotedIsRead(c: char, more: string, word: string)
    ensures ReadWords([c] + more, Quoted(word)) ==
            ReadWords(more, if c == '\'' then InWord(word) else Quoted(word + [c]))
  {
    assert ([c] + more)[1..] == more;
  }

  lemma EscapeFirst(s: string)
    ensures EscapeQuotes("") == ""
    ensures s != "" ==> EscapeQuotes(s) == (if s[0] == '\'' then "'\\''" else [s[0]]) + EscapeQuotes(s[1..])
  {
  }

  // Inside the quotes, every character is itself, and an escaped quote is a quote.
  lemma {:induction false} EscapedIsRead(s: string, rest: string, word: string)
    ensures ReadWords(EscapeQuotes(s) + ("'" + rest), Quoted(word)) == ReadWords(rest, InWord(word + s))
    decreases |s|
  {
    hide ReadWords, EscapeQuotes;
    var tail := "'" + rest;
    EscapeFirst(s);
    if s == "" {
      assert "" + tail == ['\''] + rest && word + s == word;
      QuotedIsRead('\'', rest, word);
    } else {
      var c := s[0];
      var more := EscapeQuotes(s[1..]) + tail;
      EscapedIsRead(s[1..], rest, word + [c]);
      assert word + [c] + s[1..] == word + s;
      assert EscapeQuotes(s) + tail == (if c == '\'' then "'\\''" else [c]) + more;
      if c == '\'' {
        QuoteTrick(more, word);
      } else {
        QuotedIsRead(c, more, word);
      }
    }
  }

  // Leaving the quotes, an escaped quote, and entering them again.
  lemma QuoteTrick(more: string, word: string)
    ensures ReadWords("'\\''" + more, Quoted(word)) == ReadWords(more, Quoted(word + "'"))
  {
    var a, b, c := "\\''" + more, "''" + more, "'" + more;
    assert ("'\\''" + more)[1..] == a && a[1..] == b && b[1..] == c && c[1..] == more;
    assert ReadWords(a, InWord(word)) == ReadWords(b, Escaped(word));
    assert ReadWords(b, Escaped(word)) == ReadWords(c, InWord(word + "'"));
  }

  /** The shell reads a quoted value back as one word equal to it; only the empty value becomes no word. */
  lemma QuoteRoundTrip(s: string)
    ensures ReadWords(Quote(s), Between) == Some(if s == "" then [] else [s])
  {
    hide IsSpecial;
    if AllPlain(s) {
      if s != "" {
        PlainIsNotSpecial(s[0]);
        PlainIsRead(s[1..], "", [s[0]]);
        assert s[1..] + "" == s[1..] && [s[0]] + s[1..] == s;
      }
    } else {
      EscapedIsRead(s, "", "");
      assert Quote(s) == "'" + (EscapeQuotes(s) + ("'" + ""));
      assert Quote(s)[1..] == EscapeQuotes(s) + ("'" + "");
      assert "" + s == s;
    }
  }

  // ---- the restore command ----

  /** The words before the id for a lower-cased tool name; None for the tool that takes no id. */
  function CommandWords(tool: string): Option<seq<string>> {
    if Contains(tool, "codex") then Some(["codex", "resume"])
    else if Contains(tool, "claude") then Some(["claude", "--resume"])
    else if Contains(tool, "agy") || Contains(tool, "antigravity") then Some(["agy", "resume"])
    else if tool == "omp" || Contains(tool, "oh my pi") then Some(["omp", "--resume"])
    else if Contains(tool, "opencode") then Some(["opencode", "--session"])
    else if Contains(tool, "mimo") then Some(["mimo", "--session"])
    else if Contains(tool, "kiro") then Some(["kiro-cli", "--resume-id"])
    else if Contains(tool, "codewhale") || Contains(tool, "deepseek") then Some(["codewhale", "resume"])
    else if Contains(tool, "kimi") then None
    else Some(["codex", "resume"])
  }

  /** The external id unless it is missing or blank, else the session key. */
  function SessionId(external: Option<string>, key: string): string {
    if external.Some? && Trim(external.value) != "" then external.value else key
  }

  function SessionRestoreCommand(tool: string, external: Option<string>, key: string): string {
    var words := CommandWords(tool);
    if words == None then "kimi"
    else words.value[0] + " " + (words.value[1] + " " + Quote(SessionId(external, key)))
  }

  lemma WordThenSpace(word: string, rest: string)
    requires word != "" && AllPlain(word)
    ensures ReadWords(word + " " + rest, Between) ==
            match ReadWords(rest, Between)
            case None => None
            case Some(words) => Some([word] + words)
  {
    hide IsSpecial;
    PlainIsNotSpecial(word[0]);
    var s := word + " " + rest;
    assert s[1..] == word[1..] + (" " + rest);
    PlainIsRead(word[1..], " " + rest, [word[0]]);
    assert [word[0]] + word[1..] == word;
    assert (" " + rest)[1..] == rest;
  }

  lemma CommandWordsArePlain(tool: string)
    ensures var words := CommandWords(tool);
            words.Some? ==>
              && |words.value| == 2
              && words.value[0] != "" && AllPlain(words.value[0])
              && words.value[1] != "" && AllPlain(words.value[1])
  {
    hide Contains;
  }

  const COMMANDS: map<string, Option<seq<string>>> := map[
    "codex" := Some(["codex", "resume"]),
    "claude" := Some(["claude", "--resume"]),
    "agy" := Some(["agy", "resume"]),
    "antigravity" := Some(["agy", "resume"]),
    "oh my pi" := Some(["omp", "--resume"]),
    "opencode" := Some(["opencode", "--session"]),
    "mimo" := Some(["mimo", "--session"]),
    "kiro" := Some(["kiro-cli", "--resume-id"]),
    "codewhale" := Some(["codewhale", "resume"]),
    "deepseek" := Some(["codewhale", "resume"]),
    "kimi" := None
  ]

  /** No known name but `name` occurs in the tool's. */
  predicate IsOnly(tool: string, name: string) {
    forall t :: t in COMMANDS && t != name ==> !Contains(tool, t)
  }

  lemma OnlyOne(tool: string, name: string)
    requires IsOnly(tool, name)
    ensures Contains(tool, "codex") ==> name == "codex"
    ensures Contains(tool, "claude") ==> name == "claude"
    ensures Contains(tool, "agy") ==> name == "agy"
    ensures Contains(tool, "antigravity") ==> name == "antigravity"
    ensures Contains(tool, "oh my pi") ==> name == "oh my pi"
    ensures Contains(tool, "opencode") ==> name == "opencode"
    ensures Contains(tool, "mimo") ==> name == "mimo"
    ensures Contains(tool, "kiro") ==> name == "kiro"
    ensures Contains(tool, "codewhale") ==> name == "codewhale"
    ensures Contains(tool, "deepseek") ==> name == "deepseek"
    ensures Contains(tool, "kimi") ==> name == "kimi"
  {
    hide Contains;
  }

  /** A tool whose name contains exactly one known name goes by that. */
  lemma CommandsAre(tool: string, name: string)
    requires name in COMMANDS && Contains(tool, name) && tool != "omp" && IsOnly(tool, name)
    ensures CommandWords(tool) == COMMANDS[name]
  {
    hide Contains, IsOnly;
    OnlyOne(tool, name);
  }

  /** One that contains none is omp, if it is called so, or codex; one that contains several goes by codex first, and
      then by claude. */
  lemma OtherCommandsAre(tool: string)
    ensures (forall t :: t in COMMANDS ==> !Contains(tool, t)) ==>
              CommandWords(tool) == Some(if tool == "omp" then ["omp", "--resume"] else ["codex", "resume"])
    ensures Contains(tool, "codex") ==> CommandWords(tool) == Some(["codex", "resume"])
    ensures !Contains(tool, "codex") && Contains(tool, "claude") ==> CommandWords(tool) == Some(["claude", "--resume"])
  {
    hide Contains;
    assert "codex" in COMMANDS && "claude" in COMMANDS && "agy" in COMMANDS && "antigravity" in COMMANDS;
    assert "oh my pi" in COMMANDS && "opencode" in COMMANDS && "mimo" in COMMANDS && "kiro" in COMMANDS;
    assert "codewhale" in COMMANDS && "deepseek" in COMMANDS && "kimi" in COMMANDS;
    hide COMMANDS;
  }

  /** The external id counts unless it is missing or blank. */
  lemma SessionIdIs(external: Option<string>, key: string)
    ensures external == None ==> SessionId(external, key) == key
    ensures external.Some? ==> SessionId(external, key) == if Trim(external.value) == "" then key else external.value
  {
  }

  /** A value is left as it is exactly when every character is a letter, a digit or one of -_./:= of ASCII. */
  lemma QuoteIsNeededIff(s: string)
    ensures Quote(s) == s <==>
              forall i :: 0 <= i < |s| ==>
                || 'a' <= s[i] <= 'z' || 'A' <= s[i] <= 'Z' || '0' <= s[i] <= '9'
                || s[i] in {'-', '_', '.', '/', ':', '='}
  {
    EscapedIsLonger(s);
  }

  lemma {:induction false} EscapedIsLonger(s: string)
    ensures |EscapeQuotes(s)| >= |s|
  {
    if s != "" {
      EscapedIsLonger(s[1..]);
    }
  }

  /** Every restore command is the tool, its flag and the id as one argument, whatever characters the id has;
      with an empty id the argument is missing. */
  lemma RestoreCommandIsRead(tool: string, external: Option<string>, key: string)
    ensures var id := SessionId(external, key);
            ReadWords(SessionRestoreCommand(tool, external, key), Between) ==
            if CommandWords(tool) == None then Some(["kimi"])
            else Some(CommandWords(tool).value + if id == "" then [] else [id])
  {
    hide CommandWords, SessionId, Quote, AllPlain;
    var words := CommandWords(tool);
    CommandWordsArePlain(tool);
    if words == None {
      KimiIsRead();
    } else {
      var quoted := Quote(SessionId(external, key));
      QuoteRoundTrip(SessionId(external, key));
      WordThenSpace(words.value[1], quoted);
      WordThenSpace(words.value[0], words.value[1] + " " + quoted);
      var ids := if SessionId(external, key) == "" then [] else [SessionId(external, key)];
      assert [words.value[0]] + ([words.value[1]] + ids) == words.value + ids;
    }
  }

  lemma KimiIsRead()
    ensures ReadWords("kimi", Between) == Some(["kimi"])
  {
    hide IsSpecial;
    PlainIsNotSpecial('k');
    PlainIsRead("imi", "", "k");
    assert "kimi"[1..] == "imi" && "imi" + "" == "imi" && "k" + "imi" == "kimi";
  }
}
