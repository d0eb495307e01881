/**
 Quoting a path for the shell, against a reader of the shell's own token rules.
 (app/services/sftp/shell-commands.ts, app/services/sftp/shell-file-service.ts; Shell Command Language,
 sections 2.2 Quoting and 2.3 Token Recognition)
 */
module ShellQuoting {

  // ----- the code -------------------------------------------------------------------------------

  /** Every single quote becomes: end quote, escaped quote, start quote. */
  function Replaced(path: string): string {
    if path == "" then ""
    else (if path[0] == '\'' then "'\\''" else [path[0]]) + Replaced(path[1..])
  }

  function EscapeShellPath(path: string): string {
    "'" + Replaced(path) + "'"
  }

  function BuildListCommand(path: string, showHidden: bool): string {
    "ls " + (if showHidden then "-laA" else "-la") + " " + EscapeShellPath(path)
  }

  function BuildStatCommand(path: string): string {
    "ls -lad " + EscapeShellPath(path)
  }

  function BuildReadCommand(path: string): string {
    "cat " + EscapeShellPath(path)
  }

  function BuildWriteCommand(path: string): string {
    "cat > " + EscapeShellPath(path)
  }

  // ----- the shell's reader ---------------------------------------------------------------------

  /** A character that stands for itself, or one the shell would still expand. */
  datatype Piece = Lit(c: char) | Special(c: char)

  datatype Token = Word(pieces: seq<Piece>) | Operator(c: char)

  datatype Mode = Plain | Single | Double | Escape | DoubleEscape | Comment

  /** The reader: how it is quoting, the word being read if any, and the tokens finished. */
  datatype Reader = Reader(mode: Mode, inWord: bool, word: seq<Piece>, tokens: seq<Token>)

  function Fresh(): Reader {
    Reader(Plain, false, [], [])
  }

  predicate IsOperator(c: char) {
    c == '|' || c == '&' || c == ';' || c == '<' || c == '>' || c == '(' || c == ')' || c == '\n'
  }

  /** Expanded when not quoted. */
  predicate IsSpecial(c: char) {
    c == '$' || c == '`' || c == '*' || c == '?' || c == '[' || c == '~' || c == '=' || c == '%'
  }

  function Flush(r: Reader): Reader {
    if r.inWord then Reader(r.mode, false, [], r.tokens + [Word(r.word)]) else r
  }

  function Put(r: Reader, p: Piece): Reader {
    r.(inWord := true, word := r.word + [p])
  }

  function StepPlain(r: Reader, c: char): Reader {
    if c == ' ' || c == '\t' then Flush(r)
    else if IsOperator(c) then
      var f := Flush(r);
      f.(tokens := f.tokens + [Operator(c)])
    else if c == '\'' then r.(mode := Single, inWord := true)
    else if c == '"' then r.(mode := Double, inWord := true)
    else if c == '\\' then r.(mode := Escape)
    else if c == '#' && !r.inWord then r.(mode := Comment)
    else if IsSpecial(c) then Put(r, Special(c))
    else Put(r, Lit(c))
  }

  function StepDouble(r: Reader, c: char): Reader {
    if c == '"' then r.(mode := Plain)
    else if c == '\\' then r.(mode := DoubleEscape)
    else if c == '$' || c == '`' then Put(r, Special(c))
    else Put(r, Lit(c))
  }

  function Read(r: Reader, c: char): Reader {
    match r.mode
    case Plain => StepPlain(r, c)
    case Single => if c == '\'' then r.(mode := Plain) else Put(r, Lit(c))
    case Double => StepDouble(r, c)
    case Escape => if c == '\n' then r.(mode := Plain) else Put(r.(mode := Plain), Lit(c))
    case DoubleEscape =>
      var d := r.(mode := Double);
      if c == '\n' then d
      else if c == '$' || c == '`' || c == '"' || c == '\\' then Put(d, Lit(c))
      else Put(Put(d, Lit('\\')), Lit(c))
    case Comment => if c == '\n' then r.(mode := Plain, tokens := r.tokens + [Operator(c)]) else r
  }

  function Scan(r: Reader, text: string): Reader
    decreases |text|
  {
    if text == "" then r else Scan(Read(r, text[0]), text[1..])
  }

  datatype Lexed = Tokens(tokens: seq<Token>) | Unfinished

  function Lex(text: string): Lexed {
    var r := Scan(Fresh(), text);
    if r.mode.Plain? || r.mode.Comment? then Tokens(Flush(r).tokens) else Unfinished
  }

  function Lits(text: string): seq<Piece> {
    seq(|text|, i requires 0 <= i < |text| => Lit(text[i]))
  }

  /** A word that is exactly this text, nothing in it left to expand. */
  function Exactly(text: string): Token {
    Word(Lits(text))
  }

  // ----- reading a quoted path ------------------------------------------------------------------

  lemma {:induction false} ScanAppend(r: Reader, a: string, b: string)
    ensures Scan(r, a + b) == Scan(Scan(r, a), b)
    decreases |a|
  {
    if a == "" {
      assert a + b == b;
    } else {
      assert (a + b)[1..] == a[1..] + b;
      ScanAppend(Read(r, a[0]), a[1..], b);
    }
  }

  lemma ScanOne(r: Reader, c: char)
    ensures Scan(r, [c]) == Read(r, c)
  {
    assert [c][1..] == "";
  }

  /** The four characters that stand for a quote inside quotes. */
  lemma ScanQuote(r: Reader)
    requires r.mode.Single? && r.inWord
    ensures Scan(r, "'\\''") == Put(r, Lit('\''))
  {
    var text := "'\\''";
    assert text[1..] == ['\\', '\'', '\''] && text[1..][1..] == ['\'', '\''] && text[1..][1..][1..] == ['\''];
    ScanOne(Read(Read(Read(r, '\''), '\\'), '\''), '\'');
  }

  /** Inside quotes the replaced path is read as the path. */
  lemma {:induction false} ScanReplaced(r: Reader, path: string)
    requires r.mode.Single? && r.inWord
    ensures Scan(r, Replaced(path)) == r.(word := r.word + Lits(path))
    decreases |path|
  {
    if path == "" {
      assert r.word + Lits(path) == r.word;
    } else {
      var head := if path[0] == '\'' then "'\\''" else [path[0]];
      ScanAppend(r, head, Replaced(path[1..]));
      if path[0] == '\'' { ScanQuote(r); } else { ScanOne(r, path[0]); }
      ScanReplaced(Put(r, Lit(path[0])), path[1..]);
      assert r.word + [Lit(path[0])] + Lits(path[1..]) == r.word + Lits(path);
    }
  }

  /** Where the reader is not quoting, a quoted path adds exactly the path to the word. */
  lemma ScanEscaped(r: Reader, path: string)
    requires r.mode.Plain?
    ensures Scan(r, EscapeShellPath(path)) == r.(inWord := true, word := r.word + Lits(path))
  {
    var quoted := r.(mode := Single, inWord := true);
    ScanOne(r, '\'');
    ScanReplaced(quoted, path);
    ScanAppend(r, "'" + Replaced(path), "'");
    ScanAppend(r, "'", Replaced(path));
    ScanOne(quoted.(word := r.word + Lits(path)), '\'');
  }

  /** The shell reads every quoted path as one word that is exactly the path. */
  lemma QuotedIsOneWord(path: string)
    ensures Lex(EscapeShellPath(path)) == Tokens([Exactly(path)])
  {
    ScanEscaped(Fresh(), path);
    assert [] + Lits(path) == Lits(path);
  }

  lemma LitsInjective(a: string, b: string)
    requires Lits(a) == Lits(b)
    ensures a == b
  {
    assert |a| == |Lits(a)| == |Lits(b)| == |b|;
    forall i | 0 <= i < |a| ensures a[i] == b[i] {
      assert Lits(a)[i] == Lits(b)[i];
    }
  }

  /** Different paths are quoted differently. */
  lemma QuotingIsInjective(a: string, b: string)
    requires EscapeShellPath(a) == EscapeShellPath(b)
    ensures a == b
  {
    QuotedIsOneWord(a);
    QuotedIsOneWord(b);
    LitsInjective(a, b);
  }

  // ----- in a command ---------------------------------------------------------------------------

  /** Finished tokens do not influence the reader. */
  function Prefixed(tokens: seq<Token>, r: Reader): Reader {
    r.(tokens := tokens + r.tokens)
  }

  lemma ReadPrefixed(ts: seq<Token>, r: Reader, c: char)
    ensures Read(Prefixed(ts, r), c) == Prefixed(ts, Read(r, c))
  {
    assert ts + r.tokens + [Operator(c)] == ts + (r.tokens + [Operator(c)]);
    assert ts + r.tokens + [Word(r.word)] == ts + (r.tokens + [Word(r.word)]);
    assert ts + r.tokens + [Word(r.word)] + [Operator(c)] == ts + (r.tokens + [Word(r.word)] + [Operator(c)]);
  }

  lemma {:induction false} ScanPrefixed(ts: seq<Token>, r: Reader, text: string)
    ensures Scan(Prefixed(ts, r), text) == Prefixed(ts, Scan(r, text))
    decreases |text|
  {
    if text != "" {
      ReadPrefixed(ts, r, text[0]);
      ScanPrefixed(ts, Read(r, text[0]), text[1..]);
    }
  }

  /** After this text the reader is neither quoting nor in a comment. */
  predicate Complete(text: string) {
    Scan(Fresh(), text).mode.Plain?
  }

  lemma FlushedStart(r: Reader)
    requires r.mode.Plain?
    ensures Read(r, ' ') == Flush(r)
    ensures r.inWord || r.word == [] ==> Flush(r) == Prefixed(Flush(r).tokens, Fresh())
  {
  }

  /** A word is kept only while one is being read. */
  lemma {:induction false} NoStrayWord(r: Reader, text: string)
    requires r.inWord || r.word == []
    ensures var s := Scan(r, text); s.inWord || s.word == []
    decreases |text|
  {
    if text != "" {
      NoStrayWord(Read(r, text[0]), text[1..]);
    }
  }

  /** Text, a blank, more text: the tokens of both. */
  lemma ScanBlank(a: string, b: string)
    requires Complete(a)
    ensures Scan(Fresh(), a + " " + b) == Prefixed(Lex(a).tokens, Scan(Fresh(), b))
  {
    var r := Scan(Fresh(), a);
    NoStrayWord(Fresh(), a);
    FlushedStart(r);
    ScanAppend(Fresh(), a + " ", b);
    ScanAppend(Fresh(), a, " ");
    ScanOne(r, ' ');
    ScanPrefixed(Flush(r).tokens, Fresh(), b);
  }

  lemma LexBlank(a: string, b: string)
    requires Complete(a) && Lex(b).Tokens?
    ensures Lex(a + " " + b) == Tokens(Lex(a).tokens + Lex(b).tokens)
  {
    ScanBlank(a, b);
    var s := Scan(Fresh(), b);
    assert Lex(a).tokens + s.tokens + [Word(s.word)] == Lex(a).tokens + (s.tokens + [Word(s.word)]);
  }

  /** Wherever a quoted path stands between complete texts, it is one word and the texts keep their tokens. */
  lemma QuotedInContext(before: string, path: string, after: string)
    requires Complete(before) && Lex(after).Tokens?
    ensures Lex(before + " " + EscapeShellPath(path) + " " + after)
         == Tokens(Lex(before).tokens + [Exactly(path)] + Lex(after).tokens)
  {
    var quoted := EscapeShellPath(path);
    QuotedIsOneWord(path);
    ScanEscaped(Fresh(), path);
    LexBlank(quoted, after);
    LexBlank(before, quoted + " " + after);
    assert before + " " + quoted + " " + after == before + " " + (quoted + " " + after);
    assert Lex(before).tokens + ([Exactly(path)] + Lex(after).tokens)
        == Lex(before).tokens + [Exactly(path)] + Lex(after).tokens;
  }

  lemma CommandEndsInPath(before: string, path: string)
    requires Complete(before)
    ensures Lex(before + " " + EscapeShellPath(path)) == Tokens(Lex(before).tokens + [Exactly(path)])
  {
    QuotedIsOneWord(path);
    LexBlank(before, EscapeShellPath(path));
  }

  /** A word of plain letters, digits and dashes. */
  lemma {:induction false} PlainWord(r: Reader, text: string)
    requires r.mode.Plain? && forall i :: 0 <= i < |text| ==> 'a' <= text[i] <= 'z' || text[i] == 'A' || text[i] == '-'
    requires text != "" || r.inWord
    ensures Scan(r, text) == r.(inWord := true, word := r.word + Lits(text))
    decreases |text|
  {
    if text == "" {
      assert r.word + Lits(text) == r.word;
    } else {
      PlainWord(Put(r, Lit(text[0])), text[1..]);
      assert r.word + [Lit(text[0])] + Lits(text[1..]) == r.word + Lits(text);
    }
  }

  lemma LexPlain(text: string)
    requires text != "" && forall i :: 0 <= i < |text| ==> 'a' <= text[i] <= 'z' || text[i] == 'A' || text[i] == '-'
    ensures Complete(text) && Lex(text) == Tokens([Exactly(text)])
  {
    PlainWord(Fresh(), text);
    assert [] + Lits(text) == Lits(text);
  }

  lemma TwoWords(a: string, b: string)
    requires Complete(a) && Complete(b)
    ensures Complete(a + " " + b) && Lex(a + " " + b) == Tokens(Lex(a).tokens + Lex(b).tokens)
  {
    ScanBlank(a, b);
    LexBlank(a, b);
  }

  /** Each command the service builds has the same words for every path, and the path as its last. */
  lemma ListCommandWords(path: string, showHidden: bool)
    ensures Lex(BuildListCommand(path, showHidden))
         == Tokens([Exactly("ls"), Exactly(if showHidden then "-laA" else "-la"), Exactly(path)])
  {
    var flags := if showHidden then "-laA" else "-la";
    LexPlain("ls");
    LexPlain(flags);
    TwoWords("ls", flags);
    CommandEndsInPath("ls" + " " + flags, path);
    assert "ls" + " " == "ls ";
  }

  lemma StatCommandWords(path: string)
    ensures Lex(BuildStatCommand(path)) == Tokens([Exactly("ls"), Exactly("-lad"), Exactly(path)])
  {
    LexPlain("ls");
    LexPlain("-lad");
    TwoWords("ls", "-lad");
    CommandEndsInPath("ls" + " " + "-lad", path);
    assert "ls" + " " + "-lad" + " " == "ls -lad ";
  }

  lemma ReadCommandWords(path: string)
    ensures Lex(BuildReadCommand(path)) == Tokens([Exactly("cat"), Exactly(path)])
  {
    LexPlain("cat");
    CommandEndsInPath("cat", path);
    assert "cat" + " " == "cat ";
  }

  lemma WriteCommandWords(path: string)
    ensures Lex(BuildWriteCommand(path)) == Tokens([Exactly("cat"), Operator('>'), Exactly(path)])
  {
    LexPlain("cat");
    ScanOne(Fresh(), '>');
    TwoWords("cat", ">");
    CommandEndsInPath("cat" + " " + ">", path);
    assert "cat" + " " + ">" + " " == "cat > ";
  }
}
