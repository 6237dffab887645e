/** Dollar quoting as section 4.1.2.4 of the PostgreSQL documentation has it, against the splitter's own rule. */
module PostgresQuoting {
  import opened Text
  import opened StatementSplitter

  predicate StartsWord(c: char)
  {
    'a' <= c <= 'z' || 'A' <= c <= 'Z' || c == '_' || c >= '\U{80}'
  }

  predicate ContinuesWord(c: char)
  {
    StartsWord(c) || '0' <= c <= '9' || c == '$'
  }

  /** A tag between two dollars is empty or follows the rules of an unquoted identifier, without a dollar. */
  predicate ProperTag(d: string)
  {
    && DollarTag(d)
    && (|d| > 2 ==> StartsWord(d[1]) && forall k :: 0 < k < |d| - 1 ==> ContinuesWord(d[k]))
  }

  /** Whether the next character would continue an identifier. */
  predicate InWord(t: Token, inWord: bool)
  {
    t.Plain? && (StartsWord(t.c) || (inWord && ContinuesWord(t.c)))
  }

  /** A dollar inside an identifier, or one that starts no proper tag, stands for itself. */
  function PgHead(s: string, inWord: bool): (t: Token)
    requires s != ""
    ensures Print(t) != "" && Print(t) <= s
  {
    if s[0] != '$' then Head(s)
    else match Opens(s)
      case Some(d) => if !inWord && ProperTag(d) then Head(s) else Plain('$')
      case None => Plain('$')
  }

  function PgLex(s: string, inWord: bool): seq<Token>
    decreases |s|
  {
    if s == "" then []
    else
      var t := PgHead(s, inWord);
      [t] + PgLex(s[|Print(t)|..], InWord(t, inWord))
  }

  /** Every dollar quote the splitter opened has a proper tag and follows no identifier. */
  predicate ProperDollars(ts: seq<Token>, inWord: bool)
  {
    ts != [] ==>
      && (ts[0].Quote? && DollarTag(ts[0].delim) ==> !inWord && ProperTag(ts[0].delim))
      && ProperDollars(ts[1..], InWord(ts[0], inWord))
  }

  /** The two lexers read a text alike if and only if every dollar quote the splitter opens is one PostgreSQL opens. */
  lemma {:induction false} AgreesOnProperDollars(s: string, inWord: bool)
    ensures Lex(s) == PgLex(s, inWord) <==> ProperDollars(Lex(s), inWord)
    decreases |s|
  {
    if s != "" {
      var t, u := Head(s), PgHead(s, inWord);
      var rest := s[|Print(t)|..];
      assert Lex(s)[0] == t && Lex(s)[1..] == Lex(rest);
      assert PgLex(s, inWord)[0] == u;
      if t == u {
        AgreesOnProperDollars(rest, InWord(t, inWord));
        assert PgLex(s, inWord)[1..] == PgLex(rest, InWord(t, inWord));
      }
    }
  }

  /** Hence the statements agree whenever the dollar quotes are proper. */
  lemma StatementsOfProperDollars(s: string)
    requires ProperDollars(Lex(s), false)
    ensures Statements(s) == CleanAll(Segments(PgLex(s, false)))
  {
    AgreesOnProperDollars(s, false);
  }

  /** Two positional parameters are read as one dollar quote, so the cut between them is missed. */
  lemma ParametersReadAsQuote(a: char, b: char, s: string)
    requires '0' <= a <= '9' && '0' <= b <= '9' && s == ['$', a] + ([';'] + ['$', b])
    ensures Lex(s) == [Quote(s[..4], [b], false)] && Statements(s) == [s]
    ensures PgLex(s, false) == [Plain('$'), Plain(a), Cut] + [Plain('$'), Plain(b)]
    ensures !ProperDollars(Lex(s), false)
  {
    SplitterReadsOneQuote(a, b, s);
    PgReadsParameterAndCut(a, ['$', b]);
    PgReadsLastParameter(b);
    assert |Lex(s)| != |PgLex(s, false)|;
    AgreesOnProperDollars(s, false);
  }

  lemma SplitterReadsOneQuote(a: char, b: char, s: string)
    requires '0' <= a <= '9' && '0' <= b <= '9' && s == ['$', a] + ([';'] + ['$', b])
    ensures Lex(s) == [Quote(s[..4], [b], false)] && Statements(s) == [s]
  {
    assert Find([b], s[..4]) == None;
    assert s == s[..4] + [b] + "";
    OneLexeme(Quote(s[..4], [b], false), s);
  }

  lemma OneLexeme(t: Token, s: string)
    requires Fits(t, "") && !t.Cut? && Print(t) == s && Trimmed(s) && s != ""
    ensures Lex(s) == [t] && Statements(s) == [s]
  {
    assert [t][1..] == [];
    assert PrintAll([t]) == s + "" == s;
    GrammarDetermines([t]);
    assert Segments([t]) == [s];
    TrimSpaceFixes(s);
    assert CleanAll([s]) == Clean(s) + CleanAll([]);
  }

  lemma PgReadsLastParameter(b: char)
    requires '0' <= b <= '9'
    ensures PgLex(['$', b], false) == [Plain('$'), Plain(b)]
  {
    PgReadsParameter(b, "", false);
    assert ['$', b] + "" == ['$', b];
  }

  lemma PgReadsParameterAndCut(a: char, rest: string)
    requires '0' <= a <= '9'
    ensures PgLex(['$', a] + ([';'] + rest), false) == [Plain('$'), Plain(a), Cut] + PgLex(rest, false)
  {
    PgStep(';', rest, false);
    PgReadsParameter(a, [';'] + rest, false);
  }

  lemma PgReadsParameter(digit: char, rest: string, inWord: bool)
    requires '0' <= digit <= '9' && !inWord
    ensures PgLex(['$', digit] + rest, inWord) == [Plain('$'), Plain(digit)] + PgLex(rest, false)
  {
    hide PgLex, PgHead;
    PgStep(digit, rest, false);
    PgDollar(digit, rest, inWord);
    assert ['$', digit] + rest == ['$'] + ([digit] + rest);
  }

  /** One lexeme, and the rest of the text after it. */
  lemma PgLexCons(t: Token, rest: string, inWord: bool)
    requires Print(t) != "" && PgHead(Print(t) + rest, inWord) == t
    ensures PgLex(Print(t) + rest, inWord) == [t] + PgLex(rest, InWord(t, inWord))
  {
    hide PgHead;
    assert (Print(t) + rest)[|Print(t)|..] == rest;
  }

  lemma PgStep(c: char, rest: string, inWord: bool)
    requires c != '$' && c != '\'' && c != '"'
    ensures PgLex([c] + rest, inWord) == if c == ';' then [Cut] + PgLex(rest, false)
                                        else [Plain(c)] + PgLex(rest, InWord(Plain(c), inWord))
  {
    hide PgLex;
    PgLexCons(if c == ';' then Cut else Plain(c), rest, inWord);
  }

  lemma PgDollar(c: char, rest: string, inWord: bool)
    requires !StartsWord(c) && c != '$'
    ensures PgLex(['$'] + ([c] + rest), inWord) == [Plain('$')] + PgLex([c] + rest, InWord(Plain('$'), inWord))
  {
    hide PgLex;
    ImproperTag(['$'] + ([c] + rest));
    PgLexCons(Plain('$'), [c] + rest, inWord);
  }

  /** A dollar before a character that starts no word opens no proper tag. */
  lemma ImproperTag(s: string)
    requires |s| >= 2 && s[0] == '$' && !StartsWord(s[1]) && s[1] != '$'
    ensures Opens(s).Some? ==> !ProperTag(Opens(s).value)
  {
    if Opens(s).Some? {
      var d := Opens(s).value;
      assert d[0] == s[0] && d[1] == s[1];
    }
  }
}
