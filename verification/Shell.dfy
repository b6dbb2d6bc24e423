/** Command-line capture for undoing a kill: rebuilding a shell command from a process's argument vector. */
module Shell {
  import opened Wrappers
  import opened Text

  const NUL: char := '\0'

  /** Characters that stand for themselves in a shell word. */
  predicate IsSafe(c: char) {
    'a' <= c <= 'z' || 'A' <= c <= 'Z' || '0' <= c <= '9'
    || c in {'_', '-', '.', '/', '=', '+', ':', ','}
  }

  predicate AllSafe(s: string) {
    forall i | 0 <= i < |s| :: IsSafe(s[i])
  }

  /** Inside single quotes a single quote is written as close, escaped quote, reopen. */
  function Escape(s: string): string {
    if s == "" then ""
    else (if s[0] == '\'' then ['\'', '\\', '\'', '\''] else [s[0]]) + Escape(s[1..])
  }

  function Quote(s: string): string {
    if s != "" && AllSafe(s) then s else ['\''] + Escape(s) + ['\'']
  }

  lemma {:induction false} EscapeSnoc(s: string, c: char)
    ensures Escape(s + [c]) == Escape(s) + if c == '\'' then ['\'', '\\', '\'', '\''] else [c]
  {
    if s == "" {
      assert (s + [c])[1..] == "";
    } else {
      assert (s + [c])[1..] == s[1..] + [c];
      EscapeSnoc(s[1..], c);
    }
  }

  method ShellQuote(s: string) returns (out: string)
    ensures out == Quote(s)
  {
    if s != "" && AllSafe(s) {
      return s;
    }
    out := ['\''];
    for i := 0 to |s|
      invariant out == ['\''] + Escape(s[..i])
    {
      assert s[..i + 1] == s[..i] + [s[i]];
      EscapeSnoc(s[..i], s[i]);
      if s[i] == '\'' {
        out := out + ['\'', '\\', '\'', '\''];
      } else {
        out := out + [s[i]];
      }
    }
    assert s[..|s|] == s;
    out := out + ['\''];
  }

  /** The non-empty pieces between NULs. */
  function Arguments(bytes: string): seq<string> {
    NonEmpty(Split(bytes, NUL))
  }

  function NonEmpty(parts: seq<string>): seq<string> {
    if parts == [] then []
    else (if parts[0] == "" then [] else [parts[0]]) + NonEmpty(parts[1..])
  }

  function QuoteAll(parts: seq<string>): seq<string> {
    if parts == [] then [] else [Quote(parts[0])] + QuoteAll(parts[1..])
  }

  /** The command recorded for a process with this `/proc` command line. */
  function ReadCmdline(bytes: string): Option<string> {
    var parts := Arguments(bytes);
    if parts == [] then None
    else
      var rest := QuoteAll(parts[1..]);
      if rest == [] then Some(Quote(parts[0]))
      else Some(Quote(parts[0]) + [' '] + Join(rest, ' '))
  }

  /** The command line the kernel shows: every argument followed by a NUL. */
  function Cmdline(argv: seq<string>): string {
    if argv == [] then "" else argv[0] + [NUL] + Cmdline(argv[1..])
  }

  // ---- POSIX Shell Command Language, sections 2.2.1, 2.2.2 and 2.3 ------------------------------

  /** Between words, inside a word, or inside single quotes, with the text of the word so far. */
  datatype Mode = Between | InWord(text: string) | InQuotes(text: string)

  /** Blanks and newline end a word. */
  predicate EndsWord(c: char) {
    c == ' ' || c == '\t' || c == '\n'
  }

  /**
   * Unquoted characters that the grammar or an expansion may give a meaning of their own: operators, other
   * quoting, expansions, patterns, comments, braces and tildes.
   */
  predicate IsSpecial(c: char) {
    c in {'|', '&', ';', '<', '>', '(', ')', '$', '`', '"', '*', '?', '[', ']', '#', '~', '%', '!', '{', '}'}
  }

  /** Words and the final mode, or nothing if an unquoted character with a meaning of its own is met. */
  datatype Scan = Scan(words: seq<string>, mode: Mode)

  function WordSoFar(m: Mode): string {
    if m.Between? then "" else m.text
  }

  /** Tokenising and removing quotes in one pass. */
  function Tokenize(s: string, from: Mode): Option<Scan>
    decreases |s|
  {
    if s == "" then Some(Scan([], from))
    else
      var c, rest := s[0], s[1..];
      if from.InQuotes? then
        if c == '\'' then Tokenize(rest, InWord(from.text)) else Tokenize(rest, InQuotes(from.text + [c]))
      else if EndsWord(c) then
        (match Tokenize(rest, Between)
         case None => None
         case Some(scan) => Some(if from.InWord? then scan.(words := [from.text] + scan.words) else scan))
      else if c == '\'' then Tokenize(rest, InQuotes(WordSoFar(from)))
      else if c == '\\' then
        if rest == "" then None
        else if rest[0] == '\n' then Tokenize(rest[1..], from)
        else Tokenize(rest[1..], InWord(WordSoFar(from) + [rest[0]]))
      else if IsSpecial(c) then None
      else Tokenize(rest, InWord(WordSoFar(from) + [c]))
  }

  /** The words of a whole command; an unterminated quotation is none. */
  function Words(command: string): Option<seq<string>> {
    match Tokenize(command, Between)
    case None => None
    case Some(Scan(words, Between)) => Some(words)
    case Some(Scan(words, InWord(text))) => Some(words + [text])
    case Some(Scan(_, InQuotes(_))) => None
  }

  // ---- round trip --------------------------------------------------------------------------------

  /** Close, escaped quote, reopen: one quote character more in the word. */
  lemma EscapedQuote(text: string, rest: string)
    ensures Tokenize(['\'', '\\', '\'', '\''] + rest, InQuotes(text)) == Tokenize(rest, InQuotes(text + ['\'']))
  {
    var all := ['\'', '\\', '\'', '\''] + rest;
    assert all[1..] == ['\\', '\'', '\''] + rest;
    assert all[1..][1..] == ['\'', '\''] + rest;
    assert all[1..][1..][1..] == ['\''] + rest;
    assert all[1..][1..][1..][1..] == rest;
    assert Tokenize(all, InQuotes(text)) == Tokenize(all[1..], InWord(text));
    assert Tokenize(all[1..], InWord(text)) == Tokenize(['\''] + rest, InWord(text + ['\'']));
  }

  lemma QuotedChar(c: char, text: string, rest: string)
    requires c != '\''
    ensures Tokenize([c] + rest, InQuotes(text)) == Tokenize(rest, InQuotes(text + [c]))
  {
    assert ([c] + rest)[1..] == rest;
  }

  lemma {:induction false} EscapedText(s: string, text: string, tail: string)
    ensures Tokenize(Escape(s) + ['\''] + tail, InQuotes(text)) == Tokenize(tail, InWord(text + s))
    decreases |s|
  {
    var all := Escape(s) + ['\''] + tail;
    if s == "" {
      assert all[1..] == tail;
      assert text + s == text;
    } else {
      hide Tokenize;
      var rest := Escape(s[1..]) + ['\''] + tail;
      assert text + s == text + [s[0]] + s[1..];
      EscapedText(s[1..], text + [s[0]], tail);
      if s[0] == '\'' {
        assert all == ['\'', '\\', '\'', '\''] + rest;
        EscapedQuote(text, rest);
      } else {
        assert all == [s[0]] + rest;
        QuotedChar(s[0], text, rest);
      }
    }
  }

  lemma {:induction false} SafeText(s: string, from: Mode, tail: string)
    requires AllSafe(s) && !from.InQuotes? && s != ""
    ensures Tokenize(s + tail, from) == Tokenize(tail, InWord(WordSoFar(from) + s))
    decreases |s|
  {
    assert (s + tail)[1..] == s[1..] + tail;
    var next := InWord(WordSoFar(from) + [s[0]]);
    assert Tokenize(s + tail, from) == Tokenize(s[1..] + tail, next);
    if |s| == 1 {
      assert s[1..] + tail == tail && s == [s[0]];
    } else {
      SafeText(s[1..], next, tail);
      assert WordSoFar(from) + s == WordSoFar(next) + s[1..];
    }
  }

  /** Whatever follows, a quoted argument is read as the one word it quotes. */
  lemma QuotedWord(s: string, tail: string)
    ensures Tokenize(Quote(s) + tail, Between) == Tokenize(tail, InWord(s))
  {
    if s != "" && AllSafe(s) {
      SafeText(s, Between, tail);
      assert "" + s == s;
    } else {
      var all := Quote(s) + tail;
      assert all[1..] == Escape(s) + ['\''] + tail;
      EscapedText(s, "", tail);
      assert "" + s == s;
    }
  }

  lemma SpaceEndsWord(text: string, tail: string)
    ensures Tokenize([' '] + tail, InWord(text))
         == match Tokenize(tail, Between)
            case None => None
            case Some(scan) => Some(scan.(words := [text] + scan.words))
  {
    assert ([' '] + tail)[1..] == tail;
  }

  /** The joined words are read as all but the last, with the last one still open. */
  lemma {:induction false} JoinedScan(parts: seq<string>)
    requires parts != []
    ensures Tokenize(Join(QuoteAll(parts), ' '), Between)
         == Some(Scan(parts[..|parts| - 1], InWord(parts[|parts| - 1])))
  {
    hide Quote, Tokenize;
    var quoted := QuoteAll(parts);
    if |parts| == 1 {
      assert QuoteAll(parts[1..]) == [];
      QuotedWord(parts[0], "");
      assert quoted[0] + "" == quoted[0];
      EndOfInput(InWord(parts[0]));
    } else {
      var tail := Join(QuoteAll(parts[1..]), ' ');
      assert quoted[1..] == QuoteAll(parts[1..]);
      QuotedWord(parts[0], [' '] + tail);
      assert quoted[0] + [' '] + tail == quoted[0] + ([' '] + tail);
      SpaceEndsWord(parts[0], tail);
      JoinedScan(parts[1..]);
      assert parts[..|parts| - 1] == [parts[0]] + parts[1..][..|parts| - 2];
    }
  }

  lemma EndOfInput(m: Mode)
    ensures Tokenize("", m) == Some(Scan([], m))
  {
  }

  lemma {:induction false} ArgumentsOf(argv: seq<string>)
    requires forall a | a in argv :: NUL !in a
    ensures Arguments(Cmdline(argv)) == NonEmpty(argv)
  {
    if argv == [] {
      assert NonEmpty([""][1..]) == [];
    } else {
      var rest := Cmdline(argv[1..]);
      SplitHead(argv[0], NUL, rest);
      assert ([argv[0]] + Split(rest, NUL))[1..] == Split(rest, NUL);
      ArgumentsOf(argv[1..]);
    }
  }

  /**
   * Command-line capture round-trips: for every argument vector, a shell that tokenises the recorded command and
   * removes its quotes gets the non-empty arguments back, and nothing in the command means anything else to it.
   * There is no command exactly when there is no non-empty argument.
   */
  lemma CaptureRoundTrip(argv: seq<string>)
    requires forall a | a in argv :: NUL !in a
    ensures var command := ReadCmdline(Cmdline(argv));
      && (command.None? <==> NonEmpty(argv) == [])
      && (command.Some? ==> Words(command.value) == Some(NonEmpty(argv)))
  {
    hide Tokenize, Quote, Arguments, Cmdline, NonEmpty;
    ArgumentsOf(argv);
    var parts := NonEmpty(argv);
    if parts != [] {
      JoinedScan(parts);
      assert parts == parts[..|parts| - 1] + [parts[|parts| - 1]];
      assert QuoteAll(parts)[1..] == QuoteAll(parts[1..]);
      assert |QuoteAll(parts)| == 1 <==> QuoteAll(parts[1..]) == [];
      assert ReadCmdline(Cmdline(argv)) == Some(Join(QuoteAll(parts), ' '));
    }
  }
}
