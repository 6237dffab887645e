/** What splitting keeps: splitting again changes nothing, and the cuts are exactly the semicolons outside quotes. */
module SplitterLaws {
  import opened Text
  import opened StatementSplitter

  /** Lexemes without a cut, each fitting the text behind it, which `after` ends. */
  predicate Sound(p: seq<Token>, after: string)
  {
    p == [] || (!p[0].Cut? && Fits(p[0], PrintAll(p[1..]) + after) && Sound(p[1..], after))
  }

  lemma Associate(a: string, b: string, c: string)
    ensures a + (b + c) == a + b + c
  {
  }

  /** A lexeme that fits in front of one text fits in front of any other that brings no new dollar. */
  lemma FitsElsewhere(t: Token, after: string, other: string)
    requires Fits(t, after)
    requires '$' in other ==> '$' in after
    requires after == "" ==> other == ""
    ensures Fits(t, other)
  {
  }

  lemma {:induction false} SoundElsewhere(p: seq<Token>, after: string, other: string)
    requires Sound(p, after)
    requires '$' in other ==> '$' in after
    requires after == "" ==> other == ""
    ensures Sound(p, other)
  {
    if p != [] {
      SoundElsewhere(p[1..], after, other);
      FitsElsewhere(p[0], PrintAll(p[1..]) + after, PrintAll(p[1..]) + other);
    }
  }

  /** The lexemes up to the first cut, and what follows it. */
  lemma {:induction false} FirstPiece(ts: seq<Token>) returns (p: seq<Token>, cut: bool, rest: seq<Token>)
    requires Grammatical(ts)
    ensures Grammatical(rest) && (cut ==> |rest| < |ts|)
    ensures cut ==> Sound(p, ";" + PrintAll(rest)) && PrintAll(ts) == PrintAll(p) + (";" + PrintAll(rest))
    ensures cut ==> Segments(ts) == [PrintAll(p)] + Segments(rest)
    ensures !cut ==> rest == [] && Sound(p, "") && PrintAll(ts) == PrintAll(p) && Segments(ts) == [PrintAll(p)]
  {
    if ts == [] {
      p, cut, rest := [], false, [];
    } else if ts[0].Cut? {
      p, cut, rest := [], true, ts[1..];
    } else {
      var q;
      q, cut, rest := FirstPiece(ts[1..]);
      p := [ts[0]] + q;
      assert p[1..] == q;
      Associate(Print(ts[0]), PrintAll(q), if cut then ";" + PrintAll(rest) else "");
      assert PrintAll(q) + "" == PrintAll(q);
    }
  }

  lemma {:induction false} Glue(p: seq<Token>, cut: bool, rest: seq<Token>) returns (ts: seq<Token>)
    requires Sound(p, if cut then ";" + PrintAll(rest) else "")
    requires Grammatical(rest) && (!cut ==> rest == [])
    ensures Grammatical(ts) && Segments(ts) == [PrintAll(p)] + (if cut then Segments(rest) else [])
    ensures PrintAll(ts) == PrintAll(p) + (if cut then ";" + PrintAll(rest) else "")
    ensures p != [] ==> ts != []
  {
    if p == [] {
      ts := if cut then [Cut] + rest else [];
      assert cut ==> ts[1..] == rest;
    } else {
      var us := Glue(p[1..], cut, rest);
      ts := [p[0]] + us;
      assert ts[1..] == us;
      Associate(Print(p[0]), PrintAll(p[1..]), if cut then ";" + PrintAll(rest) else "");
    }
  }

  /** White space around a piece stands bare or ends an open quote, so trimming a piece leaves a piece. */
  lemma {:induction false} TrimPieceLeft(p: seq<Token>, after: string) returns (q: seq<Token>, left: string)
    requires Sound(p, after)
    ensures Sound(q, after) && PrintAll(p) == left + PrintAll(q) && AllSpace(left)
    ensures PrintAll(q) != "" ==> !IsSpace(PrintAll(q)[0])
  {
    if p != [] && p[0].Plain? && IsSpace(p[0].c) {
      q, left := TrimPieceLeft(p[1..], after);
      left := [p[0].c] + left;
    } else {
      q, left := p, "";
    }
  }

  lemma {:induction false} TrimPieceRight(p: seq<Token>, after: string) returns (q: seq<Token>, right: string)
    requires Sound(p, after)
    ensures Sound(q, after) && PrintAll(p) == PrintAll(q) + right && AllSpace(right) && NoSpaceAtEnd(PrintAll(q))
  {
    if p == [] {
      q, right := [], "";
    } else {
      q, right := TrimPieceRight(p[1..], after);
      q, right := TrimFirst(p[0], PrintAll(p[1..]), q, right, after);
    }
  }

  predicate NoSpaceAtEnd(s: string)
  {
    s != "" ==> !IsSpace(s[|s| - 1])
  }

  lemma TrimFirst(t: Token, printed: string, q: seq<Token>, right: string, after: string)
    returns (q': seq<Token>, right': string)
    requires !t.Cut? && Fits(t, printed + after) && Sound(q, after)
    requires printed == PrintAll(q) + right && AllSpace(right) && NoSpaceAtEnd(PrintAll(q))
    ensures Sound(q', after) && Print(t) + printed == PrintAll(q') + right'
    ensures AllSpace(right') && NoSpaceAtEnd(PrintAll(q'))
  {
    if t.Quote? && !t.closed {
      q', right' := TrimOpenFirst(t);
    } else if t.Plain? && IsSpace(t.c) && PrintAll(q) == "" {
      q', right' := [], Print(t) + right;
    } else {
      ClosedEnd(t);
      KeepFirst(t, q, right, after);
      q', right' := [t] + q, right;
    }
  }

  lemma ClosedEnd(t: Token)
    ensures t.Plain? && !IsSpace(t.c) ==> NoSpaceAtEnd(Print(t))
    ensures t.Quote? && t.closed && Delimiter(t.delim) ==> NoSpaceAtEnd(Print(t))
  {
    if t.Quote? && t.closed {
      EndsInLast(t.delim + t.body, t.delim);
    }
  }

  lemma TrimOpenFirst(t: Token) returns (q: seq<Token>, right: string)
    requires t.Quote? && !t.closed && Fits(t, "")
    ensures Sound(q, "") && Print(t) + "" == PrintAll(q) + right && AllSpace(right) && NoSpaceAtEnd(PrintAll(q))
  {
    var u;
    u, right := TrimOpenQuote(t);
    PrintOne(u);
    q := [u];
    assert [u][1..] == [];
    assert PrintAll([]) + "" == "";
  }

  lemma KeepFirst(t: Token, q: seq<Token>, right: string, after: string)
    requires !t.Cut? && Fits(t, PrintAll(q) + right + after) && Sound(q, after)
    requires AllSpace(right) && NoSpaceAtEnd(PrintAll(q)) && (NoSpaceAtEnd(Print(t)) || PrintAll(q) != "")
    ensures Sound([t] + q, after) && Print(t) + (PrintAll(q) + right) == PrintAll([t] + q) + right
    ensures NoSpaceAtEnd(PrintAll([t] + q))
  {
    FitsElsewhere(t, PrintAll(q) + right + after, PrintAll(q) + after);
    Associate(Print(t), PrintAll(q), right);
    EndsInLast(Print(t), PrintAll(q));
    PushToken(t, q, after);
  }

  lemma PrintOne(t: Token)
    ensures PrintAll([t]) == Print(t)
  {
    assert [t][1..] == [];
    assert Print(t) + "" == Print(t);
  }

  lemma EndsInLast(front: string, last: string)
    ensures last != "" ==> (front + last)[|front + last| - 1] == last[|last| - 1]
    ensures last == "" ==> front + last == front
  {
  }

  lemma PushToken(t: Token, q: seq<Token>, after: string)
    ensures PrintAll([t] + q) == Print(t) + PrintAll(q)
    ensures !t.Cut? && Fits(t, PrintAll(q) + after) && Sound(q, after) ==> Sound([t] + q, after)
  {
    assert ([t] + q)[1..] == q;
  }

  /** The white space at the end of a text. */
  lemma EndSpace(b: string) returns (kept: string, right: string)
    ensures b == kept + right && AllSpace(right) && NoSpaceAtEnd(kept)
  {
    var k := |b|;
    while k > 0 && IsSpace(b[k - 1])
      invariant 0 <= k <= |b| && AllSpace(b[k..])
    {
      k := k - 1;
      assert b[k..] == [b[k]] + b[k + 1..];
    }
    kept, right := b[..k], b[k..];
  }

  lemma TrimOpenQuote(t: Token) returns (u: Token, right: string)
    requires t.Quote? && !t.closed && Fits(t, "")
    ensures Fits(u, "") && u.Quote? && u.delim == t.delim && !u.closed
    ensures Print(t) == Print(u) + right && AllSpace(right)
    ensures Print(u) != "" && !IsSpace(Print(u)[|Print(u)| - 1])
  {
    var kept;
    kept, right := EndSpace(t.body);
    u := Quote(t.delim, kept, false);
    if Find(kept, t.delim).Some? {
      FindInLonger(kept, right, t.delim, Find(kept, t.delim).value);
    }
    PrintShortened(t.delim, kept, right);
  }

  lemma PrintShortened(d: string, kept: string, right: string)
    requires Delimiter(d) && NoSpaceAtEnd(kept)
    ensures Print(Quote(d, kept + right, false)) == Print(Quote(d, kept, false)) + right
    ensures var text := Print(Quote(d, kept, false)); text != "" && !IsSpace(text[|text| - 1])
  {
    Associate(d, kept, right);
    EndsInLast(d, kept);
    assert d + kept + "" == d + kept;
    assert d + (kept + right) + "" == d + (kept + right);
  }

  /** A piece trimmed: still a piece, printing the trimmed text. */
  lemma TrimPiece(p: seq<Token>, after: string) returns (q: seq<Token>)
    requires Sound(p, after)
    ensures Sound(q, after) && PrintAll(q) == TrimSpace(PrintAll(p)) && Trimmed(PrintAll(q))
    ensures '$' in PrintAll(q) ==> '$' in PrintAll(p)
  {
    var m, left := TrimPieceLeft(p, after);
    var right;
    q, right := TrimPieceRight(m, after);
    Padded(left, PrintAll(q), right);
  }

  lemma Padded(left: string, s: string, right: string)
    requires AllSpace(left) && AllSpace(right) && NoSpaceAtEnd(s)
    requires s + right != "" ==> !IsSpace((s + right)[0])
    ensures s == TrimSpace(left + (s + right)) && Trimmed(s)
    ensures '$' in s ==> '$' in left + (s + right)
  {
    Associate(left, s, right);
    if s != "" {
      assert (s + right)[0] == s[0];
    }
    TrimSpaceRemovesPadding(left, s, right);
  }

  /** Lexemes that print the cleaned statements of `ts`, joined with cuts. */
  lemma {:induction false} Tidy(ts: seq<Token>) returns (us: seq<Token>)
    requires Grammatical(ts)
    ensures Grammatical(us)
    ensures Segments(us) == if CleanAll(Segments(ts)) == [] then [""] else CleanAll(Segments(ts))
    ensures '$' in PrintAll(us) ==> '$' in PrintAll(ts)
    decreases |ts|
  {
    var p, cut, rest := FirstPiece(ts);
    var q := TrimPiece(p, if cut then ";" + PrintAll(rest) else "");
    var vs := [];
    if cut { vs := Tidy(rest); }
    var later := if cut then CleanAll(Segments(rest)) else [];
    assert CleanAll(Segments(ts)) == Clean(PrintAll(p)) + later;
    if PrintAll(q) == "" {
      us := vs;
    } else {
      var glue := later != [];
      SoundElsewhere(q, if cut then ";" + PrintAll(rest) else "", if glue then ";" + PrintAll(vs) else "");
      us := Glue(q, glue, if glue then vs else []);
    }
  }

  lemma {:induction false} CleanAgain(segments: seq<string>)
    ensures CleanAll(CleanAll(segments)) == CleanAll(segments)
    ensures forall i :: 0 <= i < |CleanAll(segments)| ==> Trimmed(CleanAll(segments)[i]) && CleanAll(segments)[i] != ""
  {
    if segments != [] {
      CleanAgain(segments[1..]);
      var later := CleanAll(segments[1..]);
      var t := TrimSpace(segments[0]);
      var _, _ := TrimSpaceLeavesPadding(segments[0]);
      if t == "" {
        assert CleanAll(segments) == later;
      } else {
        TrimSpaceFixes(t);
        assert CleanAll(segments) == [t] + later;
        assert ([t] + later)[1..] == later;
      }
    }
  }

  /** Splitting is stable: the statements joined with ";" split into the same statements, open quotes included. */
  lemma ResplitIsStable(s: string)
    ensures Statements(Join(Statements(s), ';')) == Statements(s)
  {
    LexIsGrammatical(s);
    var us := Tidy(Lex(s));
    SegmentsJoinBack(us);
    GrammarDetermines(us);
    CleanAgain(Segments(Lex(s)));
    if Statements(s) == [] {
      assert CleanAll([""]) == [];
    }
  }

  /** Every statement is trimmed, not empty, and splits into just itself. */
  lemma StatementsAreWhole(s: string, i: nat)
    requires i < |Statements(s)|
    ensures Statements(Statements(s)[i]) == [Statements(s)[i]]
    ensures Trimmed(Statements(s)[i]) && Statements(s)[i] != ""
  {
    LexIsGrammatical(s);
    CleanAgain(Segments(Lex(s)));
    var us := Tidy(Lex(s));
    var p := NthPiece(us, i);
    SplitsIntoItself(p, Statements(s)[i]);
  }

  lemma SplitsIntoItself(p: seq<Token>, statement: string)
    requires Sound(p, "") && PrintAll(p) == statement && Trimmed(statement) && statement != ""
    ensures Statements(statement) == [statement]
  {
    var ts := Glue(p, false, []);
    assert PrintAll(ts) == statement && Segments(ts) == [statement];
    GrammarDetermines(ts);
    TrimSpaceFixes(statement);
    assert CleanAll([statement]) == Clean(statement) + CleanAll([]);
  }

  lemma {:induction false} NthPiece(ts: seq<Token>, i: nat) returns (p: seq<Token>)
    requires Grammatical(ts) && i < |Segments(ts)|
    ensures Sound(p, "") && PrintAll(p) == Segments(ts)[i]
    decreases i
  {
    hide PrintAll, Grammatical, Fits, Segments, Sound;
    var q, cut, rest := FirstPiece(ts);
    if i > 0 {
      p := NthPiece(rest, i - 1);
    } else if cut {
      SoundElsewhere(q, ";" + PrintAll(rest), "");
      p := q;
    } else {
      p := q;
    }
  }

  /** The lexeme that covers a position of the printed text. */
  function TokenAt(ts: seq<Token>, k: nat): Token
    requires k < |PrintAll(ts)|
  {
    if k < |Print(ts[0])| then ts[0] else TokenAt(ts[1..], k - |Print(ts[0])|)
  }

  /** A cut falls on every semicolon outside quotes, and nowhere else. */
  lemma {:induction false} CutsExactlyOutsideQuotes(ts: seq<Token>, k: nat)
    requires Grammatical(ts) && k < |PrintAll(ts)|
    ensures TokenAt(ts, k).Cut? <==> PrintAll(ts)[k] == ';' && !TokenAt(ts, k).Quote?
  {
    if k >= |Print(ts[0])| {
      CutsExactlyOutsideQuotes(ts[1..], k - |Print(ts[0])|);
    }
  }

  /** The first segment runs exactly to the first cut, or to the end when there is none. */
  lemma {:induction false} FirstSegmentEndsAtFirstCut(ts: seq<Token>)
    ensures var n := |Segments(ts)[0]|;
      && n <= |PrintAll(ts)| && Segments(ts)[0] == PrintAll(ts)[..n]
      && (forall k :: 0 <= k < n ==> !TokenAt(ts, k).Cut?)
      && (if n == |PrintAll(ts)| then |Segments(ts)| == 1 else TokenAt(ts, n).Cut?)
  {
    if ts != [] && !ts[0].Cut? {
      FirstSegmentEndsAtFirstCut(ts[1..]);
    }
  }
}
