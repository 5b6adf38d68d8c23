/** Shell quoting (agent/compute.go, shQuote) against the shell's own reading of a command line:
    POSIX.1-2017, XCU section 2.2 (quoting) and 2.3 (token recognition, blanks). */
module Shell {

  datatype Reading = Unreadable | Words(words: seq<string>)
  datatype Mode = Plain | Escaped | Quoted
  datatype Word = NoWord | Partial(text: string)

  // ---- The shell's side ----

  predicate Blank(c: char) { c == ' ' || c == '\t' }

  /** Characters that mean something else than themselves when they stand unquoted (XCU 2.2). */
  predicate Special(c: char) { c in "|&;<>()$`\"\n*?[#~=%" }

  function Append(w: Word, c: char): Word {
    if w.NoWord? then Partial([c]) else Partial(w.text + [c])
  }

  function Begin(w: Word): Word {
    if w.NoWord? then Partial("") else w
  }

  function Finish(words: seq<string>, w: Word): seq<string> {
    if w.NoWord? then words else words + [w.text]
  }

  /** Reads a command line made of words. Anything that would not be read as a word is Unreadable, as is a
      line that ends inside quotes or after a backslash. */
  function Read(s: string, words: seq<string>, w: Word, mode: Mode): Reading {
    if s == "" then (if mode == Plain then Words(Finish(words, w)) else Unreadable)
    else
      var c := s[0];
      match mode
      case Quoted => if c == '\'' then Read(s[1..], words, w, Plain) else Read(s[1..], words, Append(w, c), Quoted)
      case Escaped => if c == '\n' then Read(s[1..], words, w, Plain) else Read(s[1..], words, Append(w, c), Plain)
      case Plain =>
        if c == '\'' then Read(s[1..], words, Begin(w), Quoted)
        else if c == '\\' then Read(s[1..], words, w, Escaped)
        else if Blank(c) then Read(s[1..], Finish(words, w), NoWord, Plain)
        else if Special(c) then Unreadable
        else Read(s[1..], words, Append(w, c), Plain)
  }

  // ---- The program's side ----

  /** strings.ReplaceAll(s, "'", `'\''`). */
  function Escape(s: string): string {
    if s == "" then ""
    else (if s[0] == '\'' then "'\\''" else [s[0]]) + Escape(s[1..])
  }

  function ShQuote(s: string): string {
    "'" + Escape(s) + "'"
  }

  function CommandLine(args: seq<string>): string {
    if args == [] then ""
    else if |args| == 1 then ShQuote(args[0])
    else ShQuote(args[0]) + " " + CommandLine(args[1..])
  }

  // ---- The round trip ----

  lemma {:induction false} ReadEscaped(t: string, rest: string, words: seq<string>, cur: string)
    ensures Read(Escape(t) + "'" + rest, words, Partial(cur), Quoted) == Read(rest, words, Partial(cur + t), Plain)
    decreases |t|
  {
    var s := Escape(t) + "'" + rest;
    if t == "" {
      assert s[1..] == rest && cur + t == cur;
    } else {
      var tail := Escape(t[1..]) + "'" + rest;
      assert cur + [t[0]] + t[1..] == cur + t;
      if t[0] == '\'' {
        assert s == ['\'', '\\', '\'', '\''] + tail;
        assert s[1..] == ['\\', '\'', '\''] + tail;
        assert s[1..][1..] == ['\'', '\''] + tail;
        assert s[1..][1..][1..] == ['\''] + tail;
        assert s[1..][1..][1..][1..] == tail;
        calc {
          Read(s, words, Partial(cur), Quoted);
          Read(s[1..], words, Partial(cur), Plain);
          Read(s[1..][1..], words, Partial(cur), Escaped);
          Read(s[1..][1..][1..], words, Partial(cur + ['\'']), Plain);
          Read(tail, words, Partial(cur + ['\'']), Quoted);
        }
      } else {
        assert s == [t[0]] + tail && s[1..] == tail;
      }
      ReadEscaped(t[1..], rest, words, cur + [t[0]]);
    }
  }

  lemma ReadQuoted(t: string, rest: string, words: seq<string>)
    ensures Read(ShQuote(t) + rest, words, NoWord, Plain) == Read(rest, words, Partial(t), Plain)
  {
    var s := ShQuote(t) + rest;
    assert s[1..] == Escape(t) + "'" + rest;
    ReadEscaped(t, rest, words, "");
    assert "" + t == t;
  }

  lemma {:induction false} ReadArguments(args: seq<string>, words: seq<string>)
    ensures Read(CommandLine(args), words, NoWord, Plain) == Words(words + args)
    decreases |args|
  {
    if |args| == 1 {
      ReadQuoted(args[0], "", words);
      assert ShQuote(args[0]) + "" == ShQuote(args[0]) && [args[0]] == args;
    } else if |args| > 1 {
      var rest := " " + CommandLine(args[1..]);
      assert ShQuote(args[0]) + " " + CommandLine(args[1..]) == ShQuote(args[0]) + rest;
      ReadQuoted(args[0], rest, words);
      assert rest[1..] == CommandLine(args[1..]);
      ReadArguments(args[1..], words + [args[0]]);
      assert words + [args[0]] + args[1..] == words + args;
    }
  }

  /** Whatever the arguments hold, the shell reads back exactly them, one word each. */
  lemma QuotingRoundTrip(args: seq<string>)
    ensures Read(CommandLine(args), [], NoWord, Plain) == Words(args)
  {
    ReadArguments(args, []);
    assert [] + args == args;
  }

  /** One quoted string is one word: itself. */
  lemma QuotedIsOneWord(s: string)
    ensures Read(ShQuote(s), [], NoWord, Plain) == Words([s])
  {
    QuotingRoundTrip([s]);
  }
}
