/**
 Paths dropped on a terminal are typed into a shell, each in single quotes. Lexed by
 the quoting and token rules of sections 2.2 and 2.3 of the POSIX.1-2017 Shell Command
 Language, the typed text must give back the paths, one word each.
 */
module Quoting {
  import opened Options
  import opened Sequences

  /** An embedded single quote is closed, escaped and reopened. */
  function PosixQuote(s: string): string {
    "'" + QuoteBody(s) + "'"
  }

  function QuoteBody(s: string): string {
    if s == "" then ""
    else (if s[0] == '\'' then ['\'', '\\', '\'', '\''] else [s[0]]) + QuoteBody(s[1..])
  }

  // ---------- The lexer ----------

  /** Where the lexer stands: between words, in a word, after a backslash, or inside single quotes. */
  datatype Mode = Between | InWord | AfterBackslash(inWord: bool) | InQuotes

  datatype Lexer = Lexer(mode: Mode, words: seq<string>, word: string)

  const START: Lexer := Lexer(Between, [], "")

  /** Characters that would make an operator, an expansion, a pattern or a comment outside quotes. */
  predicate Special(c: char) {
    c in "|&;<>()$`\"*?[#~=%!{}\n"
  }

  /** One character; nothing when the character has a meaning that this lexer does not follow. */
  function Advance(l: Lexer, c: char): Option<Lexer> {
    match l.mode
    case InQuotes =>
      Some(if c == '\'' then l.(mode := InWord) else l.(word := l.word + [c]))
    case AfterBackslash(inWord) =>
      // A backslash keeps the next character as it is; before a newline both disappear.
      Some(if c == '\n' then l.(mode := if inWord then InWord else Between) else Lexer(InWord, l.words, l.word + [c]))
    case _ =>
      if c == '\'' then Some(l.(mode := InQuotes))
      else if c == '\\' then Some(l.(mode := AfterBackslash(l.mode == InWord)))
      else if c == ' ' || c == '\t' then
        Some(if l.mode == InWord then Lexer(Between, l.words + [l.word], "") else l)
      else if Special(c) then None
      else Some(Lexer(InWord, l.words, l.word + [c]))
  }

  function Lex(l: Lexer, s: string): Option<Lexer>
    decreases |s|
  {
    if s == "" then Some(l)
    else
      var next := Advance(l, s[0]);
      if next.None? then None else Lex(next.value, s[1..])
  }

  /** The words of a complete command line; nothing when a quote or a backslash is left open. */
  function Words(s: string): Option<seq<string>> {
    var l := Lex(START, s);
    if l.None? then None
    else
      match l.value.mode
      case Between => Some(l.value.words)
      case InWord => Some(l.value.words + [l.value.word])
      case _ => None
  }

  lemma {:induction false} LexAppend(l: Lexer, a: string, b: string)
    ensures Lex(l, a + b) == if Lex(l, a).None? then None else Lex(Lex(l, a).value, b)
    decreases |a|
  {
    if a == "" {
      assert a + b == b;
    } else {
      assert (a + b)[1..] == a[1..] + b;
      if Advance(l, a[0]).Some? {
        LexAppend(Advance(l, a[0]).value, a[1..], b);
      }
    }
  }

  // ---------- The round trip ----------

  lemma LexEscapedQuote(l: Lexer)
    requires l.mode == InQuotes
    ensures Lex(l, ['\'', '\\', '\'', '\'']) == Some(l.(word := l.word + ['\'']))
  {
    var s := ['\'', '\\', '\'', '\''];
    var l1 := l.(mode := InWord);
    var l2 := l.(mode := AfterBackslash(true));
    var l3 := Lexer(InWord, l.words, l.word + ['\'']);
    assert s[1..] == ['\\', '\'', '\''] && s[1..][1..] == ['\'', '\''] && s[1..][1..][1..] == ['\''];
    assert Lex(l, s) == Lex(l1, ['\\', '\'', '\'']) == Lex(l2, ['\'', '\'']) == Lex(l3, ['\'']);
  }

  /** Inside quotes, the quoted body adds exactly the characters of the string. */
  lemma {:induction false} LexBody(l: Lexer, s: string)
    requires l.mode == InQuotes
    ensures Lex(l, QuoteBody(s)) == Some(l.(word := l.word + s))
    decreases |s|
  {
    if s == "" {
      assert l.word + s == l.word;
    } else {
      var head := if s[0] == '\'' then ['\'', '\\', '\'', '\''] else [s[0]];
      var l1 := l.(word := l.word + [s[0]]);
      LexAppend(l, head, QuoteBody(s[1..]));
      if s[0] == '\'' {
        LexEscapedQuote(l);
      } else {
        assert head[1..] == "" && Lex(l, head) == Lex(l1, "") == Some(l1);
      }
      LexBody(l1, s[1..]);
      assert l.word + [s[0]] + s[1..] == l.word + s;
    }
  }

  /** A quoted string followed by a space is one more word, whatever it contains. */
  lemma LexQuoted(words: seq<string>, s: string)
    ensures Lex(Lexer(Between, words, ""), PosixQuote(s) + " ") == Some(Lexer(Between, words + [s], ""))
  {
    var start, inside, filled := Lexer(Between, words, ""), Lexer(InQuotes, words, ""), Lexer(InQuotes, words, s);
    var body := QuoteBody(s);
    LexBody(inside, s);
    assert "" + s == s;
    LexAppend(start, "'", body);
    LexAppend(start, "'" + body, "'");
    LexAppend(start, PosixQuote(s), " ");
  }

  /** What the drop types: each path that was obtained and is not empty, quoted, with a space after it. */
  function Typed(paths: seq<Option<string>>): string {
    if paths == [] then ""
    else if paths[0].Some? && paths[0].value != "" then (PosixQuote(paths[0].value) + " ") + Typed(paths[1..])
    else Typed(paths[1..])
  }

  function Obtained(paths: seq<Option<string>>): seq<string> {
    if paths == [] then []
    else if paths[0].Some? && paths[0].value != "" then [paths[0].value] + Obtained(paths[1..])
    else Obtained(paths[1..])
  }

  /** A path that was obtained and is not empty. */
  predicate Usable(path: Option<string>) {
    path.Some? && path.value != ""
  }

  ghost function Somes(words: seq<string>): seq<Option<string>> {
    seq(|words|, i requires 0 <= i < |words| => Some(words[i]))
  }

  /** The obtained paths are the usable ones, all of them, in order. */
  lemma {:induction false} ObtainedAreUsable(paths: seq<Option<string>>)
    ensures Filtered(paths, Usable, Somes(Obtained(paths)))
  {
    if paths == [] {
      FilteredNone(Usable);
      assert Somes([]) == [];
    } else {
      ObtainedAreUsable(paths[1..]);
      FilteredCons(paths, Usable, Somes(Obtained(paths[1..])));
      if Usable(paths[0]) {
        SomesCons(paths[0].value, Obtained(paths[1..]));
      } else {
        assert [] + Somes(Obtained(paths[1..])) == Somes(Obtained(paths[1..]));
      }
    }
  }

  lemma SomesCons(word: string, words: seq<string>)
    ensures Somes([word] + words) == [Some(word)] + Somes(words)
  {
  }

  /** Typed where a word may begin, the drop adds exactly the obtained paths as words. */
  lemma {:induction false} LexTyped(words: seq<string>, paths: seq<Option<string>>)
    ensures Lex(Lexer(Between, words, ""), Typed(paths)) == Some(Lexer(Between, words + Obtained(paths), ""))
    decreases |paths|
  {
    var start := Lexer(Between, words, "");
    if paths == [] {
      assert words + [] == words;
    } else if paths[0].Some? && paths[0].value != "" {
      var s := paths[0].value;
      LexAppend(start, PosixQuote(s) + " ", Typed(paths[1..]));
      LexQuoted(words, s);
      LexTyped(words + [s], paths[1..]);
      Regroup(words, [s], Obtained(paths[1..]));
    } else {
      LexTyped(words, paths[1..]);
    }
  }

  /** The shell reads the dropped paths back, in order, whatever characters they contain. */
  lemma DropRoundTrip(paths: seq<Option<string>>)
    ensures Words(Typed(paths)) == Some(Obtained(paths))
  {
    LexTyped([], paths);
    assert [] + Obtained(paths) == Obtained(paths);
  }

  /** And it reads them after what is already on the line, if that ends between two words. */
  lemma DropAfterPrefix(prefix: string, paths: seq<Option<string>>)
    requires Lex(START, prefix).Some? && Lex(START, prefix).value.mode == Between
    ensures Words(prefix).Some? && Words(prefix + Typed(paths)) == Some(Words(prefix).value + Obtained(paths))
  {
    LexKeepsShape(START, prefix);
    LexAppend(START, prefix, Typed(paths));
    LexTyped(Lex(START, prefix).value.words, paths);
  }

  /** Between two words no characters are pending. */
  lemma {:induction false} LexKeepsShape(l: Lexer, s: string)
    requires l.mode == Between || l.mode == AfterBackslash(false) ==> l.word == ""
    ensures Lex(l, s).Some? && Lex(l, s).value.mode == Between ==> Lex(l, s).value.word == ""
    decreases |s|
  {
    if s != "" && Advance(l, s[0]).Some? {
      LexKeepsShape(Advance(l, s[0]).value, s[1..]);
    }
  }

  // ---------- The drop as it runs ----------

  /** The terminal input that a drop writes to. */
  class Terminal {
    var input: string

    constructor ()
      ensures input == ""
    {
      input := "";
    }

    /** Writes each path as it is obtained; a failed or empty one writes nothing. */
    method Drop(paths: seq<Option<string>>)
      modifies this
      ensures input == old(input) + Typed(paths)
    {
      assert paths[0..] == paths;
      for i := 0 to |paths|
        invariant input + Typed(paths[i..]) == old(input) + Typed(paths)
      {
        var typed := paths[i];
        assert paths[i..][1..] == paths[i + 1..];
        if typed.Some? && typed.value != "" {
          input := input + (PosixQuote(typed.value) + " ");
        }
      }
    }
  }
}
