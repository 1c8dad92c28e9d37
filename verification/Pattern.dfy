/**
 The literal mode of the search builds a regular expression from the query by putting
 a backslash before every character with a meaning. Read back by the Pattern grammar
 of section 22.2.1 of ECMA-262, the result must denote the query and nothing else.
 */
module Pattern {
  import opened Options

  /** The production SyntaxCharacter. */
  predicate SyntaxCharacter(c: char) {
    || c == '^' || c == '$' || c == '\\' || c == '.' || c == '*' || c == '+' || c == '?'
    || c == '(' || c == ')' || c == '[' || c == ']' || c == '{' || c == '}' || c == '|'
  }

  /** The characters that the editor's own escaping lists. */
  predicate Escaped(c: char) {
    || c == '.' || c == '*' || c == '+' || c == '?' || c == '^' || c == '$' || c == '{'
    || c == '}' || c == '(' || c == ')' || c == '|' || c == '[' || c == ']' || c == '\\'
  }

  function Escape(query: string): string {
    if query == "" then ""
    else (if Escaped(query[0]) then ['\\', query[0]] else [query[0]]) + Escape(query[1..])
  }

  /** One character of a pattern, or an escape: a literal character, or something with a meaning of its own. */
  datatype Term = Literal(c: char) | Meaningful(c: char)

  /**
   Reads a pattern. An unescaped syntax character opens a group, a class, a quantifier
   or the like; a backslash makes a syntax character literal and gives other characters
   a meaning; a lone backslash is no pattern.
   */
  function Terms(pattern: string): Option<seq<Term>>
    decreases |pattern|
  {
    if pattern == "" then Some([])
    else if pattern[0] == '\\' then
      if |pattern| == 1 then None
      else
        var rest := Terms(pattern[2..]);
        if rest.None? then None
        else Some([if SyntaxCharacter(pattern[1]) then Literal(pattern[1]) else Meaningful(pattern[1])] + rest.value)
    else
      var rest := Terms(pattern[1..]);
      if rest.None? then None
      else Some([if SyntaxCharacter(pattern[0]) then Meaningful(pattern[0]) else Literal(pattern[0])] + rest.value)
  }

  function Literals(s: string): seq<Term> {
    seq(|s|, i requires 0 <= i < |s| => Literal(s[i]))
  }

  lemma LiteralsOfCons(s: string)
    requires s != ""
    ensures Literals(s) == [Literal(s[0])] + Literals(s[1..])
  {
  }

  lemma TermsOfPlain(c: char, rest: string)
    requires c != '\\' && Terms(rest).Some?
    ensures Terms([c] + rest) == Some([if SyntaxCharacter(c) then Meaningful(c) else Literal(c)] + Terms(rest).value)
  {
    assert ([c] + rest)[1..] == rest;
  }

  /** The escaped query denotes exactly the query, character by character. */
  lemma {:induction false} EscapeDenotesQuery(query: string)
    ensures Terms(Escape(query)) == Some(Literals(query))
  {
    if query == "" {
      assert Literals(query) == [];
    } else {
      EscapeDenotesQuery(query[1..]);
      LiteralsOfCons(query);
      if !SyntaxCharacter(query[0]) {
        TermsOfPlain(query[0], Escape(query[1..]));
      }
    }
  }

  /** Without escaping, a query denotes itself exactly when it has no syntax character. */
  lemma {:induction false} RawQueryDenotesItselfIff(query: string)
    ensures Terms(query) == Some(Literals(query)) <==> forall c :: c in query ==> !SyntaxCharacter(c)
  {
    if query == "" {
      assert Literals(query) == [];
    } else if query[0] == '\\' {
      if |query| > 1 {
        TermsAreNoLonger(query[2..]);
      }
      assert |Literals(query)| == |query| && query[0] in query;
    } else {
      RawQueryDenotesItselfIff(query[1..]);
      LiteralsOfCons(query);
      assert query == [query[0]] + query[1..];
      if Terms(query[1..]).Some? {
        TermsOfPlain(query[0], query[1..]);
        assert Terms(query).value[1..] == Terms(query[1..]).value;
        assert Literals(query)[1..] == Literals(query[1..]);
      }
    }
  }

  lemma {:induction false} TermsAreNoLonger(pattern: string)
    ensures Terms(pattern).Some? ==> |Terms(pattern).value| <= |pattern|
    decreases |pattern|
  {
    if pattern != "" {
      if pattern[0] != '\\' {
        TermsAreNoLonger(pattern[1..]);
      } else if |pattern| > 1 {
        TermsAreNoLonger(pattern[2..]);
      }
    }
  }
}
