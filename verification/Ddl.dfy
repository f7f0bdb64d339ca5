/** The text of the CREATE and DROP DATABASE commands, and a reader of delimited identifiers to compare it with:
section 5.2 of ISO/IEC 9075-2, where a doubled quote stands for one. */
module Ddl {
  import opened Wrappers

  const QUOTE: char := '"'

  // ---------- the code ----------

  /** Doubles every embedded quote. */
  function EscapeIdentifier(name: string): string {
    if name == [] then []
    else (if name[0] == QUOTE then [QUOTE, QUOTE] else [name[0]]) + EscapeIdentifier(name[1..])
  }

  /** Replaces the occurrences of a non-empty pattern, left to right, never looking at what it has put in. */
  function Replace(s: string, pattern: string, with: string): string
    requires pattern != []
    decreases |s|
  {
    if s == [] then []
    else if pattern <= s then with + Replace(s[|pattern|..], pattern, with)
    else [s[0]] + Replace(s[1..], pattern, with)
  }

  function Quoted(name: string): string {
    [QUOTE] + EscapeIdentifier(name) + [QUOTE]
  }

  function DdlCommand(template: string, name: string): string {
    Replace(template, "{}", Quoted(name))
  }

  function CreateFromTemplate(name: string, template: string): string {
    "CREATE DATABASE " + Quoted(name) + " TEMPLATE " + Quoted(template)
  }

  // ---------- the reader ----------

  datatype Token = Word(text: string) | Identifier(name: string)

  /** Reads up to the closing quote: the name, and what follows it.  A doubled quote does not close. */
  function ReadQuoted(s: string): Option<(string, string)> {
    if s == [] then None
    else if s[0] == QUOTE then
      if |s| > 1 && s[1] == QUOTE then
        match ReadQuoted(s[2..]) { case None => None case Some((name, rest)) => Some(([QUOTE] + name, rest)) }
      else Some(([], s[1..]))
    else
      match ReadQuoted(s[1..]) { case None => None case Some((name, rest)) => Some(([s[0]] + name, rest)) }
  }

  predicate WordChar(c: char) {
    c != ' ' && c != QUOTE
  }

  function WordLength(s: string): (n: nat)
    ensures n <= |s|
  {
    if s == [] || !WordChar(s[0]) then 0 else 1 + WordLength(s[1..])
  }

  lemma {:induction false} ReadQuotedShortens(s: string)
    ensures ReadQuoted(s).Some? ==> |ReadQuoted(s).value.1| < |s|
    decreases |s|
  {
    if s != [] {
      if s[0] != QUOTE {
        ReadQuotedShortens(s[1..]);
      } else if |s| > 1 && s[1] == QUOTE {
        ReadQuotedShortens(s[2..]);
      }
    }
  }

  /** The tokens of a command, or None for an identifier that is never closed. */
  function Tokens(s: string): Option<seq<Token>>
    decreases |s|
  {
    if s == [] then Some([])
    else if s[0] == ' ' then Tokens(s[1..])
    else if s[0] == QUOTE then
      ReadQuotedShortens(s[1..]);
      match ReadQuoted(s[1..])
      case None => None
      case Some((name, rest)) => Cons(Identifier(name), Tokens(rest))
    else
      var n := WordLength(s);
      Cons(Word(s[..n]), Tokens(s[n..]))
  }

  function Cons(t: Token, rest: Option<seq<Token>>): Option<seq<Token>> {
    if rest.None? then None else Some([t] + rest.value)
  }

  // ---------- reading gives back what was written ----------

  /** The reader stops at the intended quote, whatever the name contains, unless a quote follows it at once. */
  lemma {:induction false} ReadsBack(name: string, rest: string)
    requires rest == [] || rest[0] != QUOTE
    ensures ReadQuoted(EscapeIdentifier(name) + [QUOTE] + rest) == Some((name, rest))
  {
    var s := EscapeIdentifier(name) + [QUOTE] + rest;
    if name == [] {
      assert s == [QUOTE] + rest;
      assert s[1..] == rest;
    } else {
      ReadsBack(name[1..], rest);
      var tail := EscapeIdentifier(name[1..]) + [QUOTE] + rest;
      if name[0] == QUOTE {
        assert s == [QUOTE, QUOTE] + tail;
        assert s[2..] == tail;
      } else {
        assert s == [name[0]] + tail;
        assert s[1..] == tail;
      }
      assert [name[0]] + name[1..] == name;
    }
  }

  lemma {:induction false} EscapeInjective(a: string, b: string)
    requires EscapeIdentifier(a) == EscapeIdentifier(b)
    ensures a == b
  {
    ReadsBack(a, []);
    ReadsBack(b, []);
  }

  lemma {:induction false} IdentifierToken(name: string, rest: string)
    requires rest == [] || rest[0] != QUOTE
    ensures Tokens(Quoted(name) + rest) == Cons(Identifier(name), Tokens(rest))
  {
    var s := Quoted(name) + rest;
    assert s[1..] == EscapeIdentifier(name) + [QUOTE] + rest;
    ReadsBack(name, rest);
  }

  lemma {:induction false} WordToken(word: string, rest: string)
    requires word != [] && forall i :: 0 <= i < |word| ==> WordChar(word[i])
    ensures Tokens(word + " " + rest) == Cons(Word(word), Tokens(rest))
  {
    var s := word + " " + rest;
    WordLengthIs(word, " " + rest);
    assert s == word + (" " + rest);
    assert s[..|word|] == word && s[|word|..] == " " + rest;
    assert (" " + rest)[1..] == rest;
    assert s[0] == word[0];
  }

  lemma {:induction false} WordLengthIs(word: string, rest: string)
    requires (forall i :: 0 <= i < |word| ==> WordChar(word[i])) && rest != [] && !WordChar(rest[0])
    ensures WordLength(word + rest) == |word|
  {
    if word == [] {
      assert word + rest == rest;
    } else {
      assert (word + rest)[1..] == word[1..] + rest;
      WordLengthIs(word[1..], rest);
    }
  }

  /** Substitution puts the quoted name in place of the one placeholder, even when the name contains one. */
  lemma {:induction false} PlaceholderOnce(prefix: string, text: string)
    requires forall i :: 0 <= i < |prefix| ==> prefix[i] != '{'
    ensures Replace(prefix + "{}", "{}", text) == prefix + text
  {
    var s := prefix + "{}";
    if prefix == [] {
      assert s == "{}" && s[2..] == [];
      assert Replace(s[2..], "{}", text) == [];
      assert text + [] == text;
    } else {
      assert s[0] == prefix[0] && !("{}" <= s);
      assert s[1..] == prefix[1..] + "{}";
      PlaceholderOnce(prefix[1..], text);
      assert [prefix[0]] + (prefix[1..] + text) == prefix + text;
    }
  }

  predicate PlainWord(word: string) {
    word != [] && forall i :: 0 <= i < |word| ==> WordChar(word[i]) && word[i] != '{'
  }

  lemma {:induction false} VerbAndNoun(verb: string, noun: string, rest: string)
    requires PlainWord(verb) && PlainWord(noun)
    ensures Tokens(verb + " " + noun + " " + rest) == Cons(Word(verb), Cons(Word(noun), Tokens(rest)))
  {
    assert verb + " " + noun + " " + rest == verb + " " + (noun + " " + rest);
    WordToken(verb, noun + " " + rest);
    WordToken(noun, rest);
  }

  lemma {:induction false} CommandNames(verb: string, noun: string, name: string)
    requires PlainWord(verb) && PlainWord(noun)
    ensures Tokens(DdlCommand(verb + " " + noun + " " + "{}", name)) == Some([Word(verb), Word(noun), Identifier(name)])
  {
    PlaceholderOnce(verb + " " + noun + " ", Quoted(name));
    VerbAndNoun(verb, noun, Quoted(name));
    assert Quoted(name) + [] == Quoted(name);
    IdentifierToken(name, []);
    assert Tokens([]) == Some([]);
    assert [Word(verb)] + ([Word(noun)] + ([Identifier(name)] + [])) == [Word(verb), Word(noun), Identifier(name)];
  }

  /** For every name, the create command reads as the verb and that one identifier, and nothing else. */
  lemma {:induction false} CreateNamesExactly(name: string)
    ensures Tokens(DdlCommand("CREATE DATABASE {}", name)) == Some([Word("CREATE"), Word("DATABASE"), Identifier(name)])
  {
    assert "CREATE" + " " + "DATABASE" + " " + "{}" == "CREATE DATABASE {}";
    CommandNames("CREATE", "DATABASE", name);
  }

  lemma {:induction false} DropNamesExactly(name: string)
    ensures Tokens(DdlCommand("DROP DATABASE {}", name)) == Some([Word("DROP"), Word("DATABASE"), Identifier(name)])
  {
    assert "DROP" + " " + "DATABASE" + " " + "{}" == "DROP DATABASE {}";
    CommandNames("DROP", "DATABASE", name);
  }

  lemma {:induction false} NamePair(keyword: string, name: string, template: string)
    requires PlainWord(keyword)
    ensures Tokens(Quoted(name) + (" " + keyword + " " + Quoted(template)))
         == Some([Identifier(name), Word(keyword), Identifier(template)])
  {
    var last := Quoted(template);
    var tail := " " + keyword + " " + last;
    assert Tokens([]) == Some([]);
    assert last + [] == last;
    IdentifierToken(template, []);
    WordToken(keyword, last);
    assert tail == " " + (keyword + " " + last);
    assert tail[1..] == keyword + " " + last;
    IdentifierToken(name, tail);
    assert [Identifier(name)] + ([Word(keyword)] + ([Identifier(template)] + []))
        == [Identifier(name), Word(keyword), Identifier(template)];
  }

  lemma {:induction false} CloneTokens(
      verb: string, noun: string, keyword: string, before: string, between: string, name: string, template: string)
    requires PlainWord(verb) && PlainWord(noun) && PlainWord(keyword)
    requires before == verb + " " + noun + " " && between == " " + keyword + " "
    ensures Tokens(before + Quoted(name) + between + Quoted(template))
         == Some([Word(verb), Word(noun), Identifier(name), Word(keyword), Identifier(template)])
  {
    var rest := Quoted(name) + (between + Quoted(template));
    NamePair(keyword, name, template);
    VerbAndNoun(verb, noun, rest);
    assert before + Quoted(name) + between + Quoted(template) == before + rest;
    assert [Word(verb)] + ([Word(noun)] + [Identifier(name), Word(keyword), Identifier(template)])
        == [Word(verb), Word(noun), Identifier(name), Word(keyword), Identifier(template)];
  }

  /** And the cloning command as the two names, each in its place. */
  lemma {:induction false} CloneNamesExactly(name: string, template: string)
    ensures Tokens(CreateFromTemplate(name, template))
         == Some([Word("CREATE"), Word("DATABASE"), Identifier(name), Word("TEMPLATE"), Identifier(template)])
  {
    assert "CREATE" + " " + "DATABASE" + " " == "CREATE DATABASE ";
    assert " " + "TEMPLATE" + " " == " TEMPLATE ";
    CloneTokens("CREATE", "DATABASE", "TEMPLATE", "CREATE DATABASE ", " TEMPLATE ", name, template);
  }
}
