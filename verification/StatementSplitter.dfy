/** Cutting a SQL text into statements at the semicolons that stand outside quotes. */
module StatementSplitter {
  import opened Text

  /**
   A lexeme: a bare character, a statement separator, or a quoted stretch with its delimiter (', " or a
   dollar tag).
   */
  datatype Token =
    | Plain(c: char)
    | Cut
    | Quote(delim: string, body: string, closed: bool)

  function Print(t: Token): string
  {
    match t
    case Plain(c) => [c]
    case Cut => ";"
    case Quote(d, b, closed) => d + b + (if closed then d else "")
  }

  function PrintAll(ts: seq<Token>): string
  {
    if ts == [] then "" else Print(ts[0]) + PrintAll(ts[1..])
  }

  predicate OccursAt(s: string, pattern: string, at: nat)
  {
    at + |pattern| <= |s| && s[at..at + |pattern|] == pattern
  }

  lemma OccursInRest(s: string, pattern: string, at: nat)
    requires s != ""
    ensures OccursAt(s[1..], pattern, at) == OccursAt(s, pattern, at + 1)
  {
    if at + 1 + |pattern| <= |s| {
      assert s[1..][at..at + |pattern|] == s[at + 1..at + 1 + |pattern|];
    }
  }

  lemma OccursInLonger(s: string, more: string, pattern: string, at: nat)
    requires at + |pattern| <= |s|
    ensures OccursAt(s + more, pattern, at) == OccursAt(s, pattern, at)
  {
    assert (s + more)[at..at + |pattern|] == s[at..at + |pattern|];
  }

  predicate AbsentBefore(s: string, pattern: string, from: nat, to: nat)
  {
    forall k: nat :: from <= k < to ==> !OccursAt(s, pattern, k)
  }

  /** Where `pattern` first occurs in `s`. */
  function Find(s: string, pattern: string): (at: Option<nat>)
    ensures match at
            case Some(m) => OccursAt(s, pattern, m) && AbsentBefore(s, pattern, 0, m)
            case None => AbsentBefore(s, pattern, 0, |s| + 1)
  {
    FindFrom(s, pattern, 0)
  }

  function FindFrom(s: string, pattern: string, from: nat): (at: Option<nat>)
    requires from <= |s|
    ensures match at
            case Some(m) => OccursAt(s, pattern, m) && AbsentBefore(s, pattern, from, m)
            case None => AbsentBefore(s, pattern, from, |s| + 1)
    decreases |s| - from
  {
    if OccursAt(s, pattern, from) then Some(from)
    else if from == |s| then None
    else FindFrom(s, pattern, from + 1)
  }

  lemma FirstIsUnique(s: string, pattern: string, at: nat)
    requires OccursAt(s, pattern, at) && AbsentBefore(s, pattern, 0, at)
    ensures Find(s, pattern) == Some(at)
  {
    assert at < |s| + 1;
  }

  lemma FindInRest(s: string, pattern: string)
    requires s != "" && !OccursAt(s, pattern, 0)
    ensures Find(s, pattern) == match Find(s[1..], pattern) case None => None case Some(m) => Some(m + 1)
  {
    forall k: nat | k > 0
      ensures OccursAt(s, pattern, k) == OccursAt(s[1..], pattern, k - 1)
    {
      OccursInRest(s, pattern, k - 1);
    }
    match Find(s[1..], pattern)
    case Some(m) =>
      FirstIsUnique(s, pattern, m + 1);
    case None =>
  }

  lemma FindInLonger(s: string, more: string, pattern: string, at: nat)
    requires Find(s, pattern) == Some(at)
    ensures Find(s + more, pattern) == Some(at)
  {
    forall k: nat | k <= at
      ensures OccursAt(s + more, pattern, k) == OccursAt(s, pattern, k)
    {
      OccursInLonger(s, more, pattern, k);
    }
    FirstIsUnique(s + more, pattern, at);
  }

  lemma FindInShorter(s: string, more: string, pattern: string, at: nat)
    requires Find(s + more, pattern) == Some(at) && at + |pattern| <= |s|
    ensures Find(s, pattern) == Some(at)
  {
    forall k: nat | k <= at
      ensures OccursAt(s + more, pattern, k) == OccursAt(s, pattern, k)
    {
      OccursInLonger(s, more, pattern, k);
    }
    FirstIsUnique(s, pattern, at);
  }

  /** The next character `c`, if any. */
  function FindChar(s: string, c: char): (at: Option<nat>)
    ensures at.Some? ==> at.value < |s| && s[at.value] == c && forall k :: 0 <= k < at.value ==> s[k] != c
    ensures at.Some? <==> c in s
  {
    if s == "" then None
    else if s[0] == c then Some(0)
    else match FindChar(s[1..], c)
      case None => None
      case Some(k) => Some(k + 1)
  }

  /** Delimiters: a quote character, or two dollars with no dollar between them. */
  predicate Delimiter(d: string)
  {
    d == "'" || d == "\"" || DollarTag(d)
  }

  predicate DollarTag(d: string)
  {
    |d| >= 2 && d[0] == '$' && d[|d| - 1] == '$' && forall k :: 0 < k < |d| - 1 ==> d[k] != '$'
  }

  /** The delimiter that a quote opening at the head of `s` has; a dollar needs a second dollar somewhere after it. */
  function Opens(s: string): (d: Option<string>)
    requires s != ""
    ensures d.Some? ==> Delimiter(d.value) && d.value <= s
  {
    if s[0] == '\'' then Some("'")
    else if s[0] == '"' then Some("\"")
    else if s[0] == '$' then
      match FindChar(s[1..], '$')
      case None => None
      case Some(j) =>
        assert forall k :: 0 < k < j + 1 ==> s[k] == s[1..][k - 1];
        Some(s[..j + 2])
    else None
  }

  /**
   What the lexeme `t` may be when `after` is the text behind it, without saying how to find it:
   a quote ends at the first chance its delimiter has, only the last lexeme may stay open, and the
   characters that open or cut never stand bare, except a dollar no other dollar follows.
   */
  predicate Fits(t: Token, after: string)
  {
    match t
    case Plain(c) => c != ';' && c != '\'' && c != '"' && (c == '$' ==> '$' !in after)
    case Cut => true
    case Quote(d, b, closed) =>
      && Delimiter(d)
      && (if closed then Find(b + d, d) == Some(|b|) else Find(b, d) == None && after == "")
  }

  /** The lexeme a text starts with: quotes run to the first later occurrence of their own delimiter, or to the end. */
  function Head(s: string): (t: Token)
    requires s != ""
    ensures Print(t) != "" && Print(t) <= s
    ensures Fits(t, s[|Print(t)|..])
  {
    match Opens(s)
    case None =>
      if s[0] == ';' then Cut else Plain(s[0])
    case Some(d) =>
      assert s == d + s[|d|..];
      QuoteFrom(d, s[|d|..])
  }

  function QuoteFrom(d: string, rest: string): (t: Token)
    requires Delimiter(d)
    ensures t.Quote? && t.delim == d
    ensures t.closed ==> Find(rest, d) == Some(|t.body|) && rest == t.body + d + rest[|t.body| + |d|..]
    ensures !t.closed ==> Find(rest, d) == None && t.body == rest
    ensures Print(t) <= d + rest && Fits(t, (d + rest)[|Print(t)|..])
  {
    match Find(rest, d)
    case None => Quote(d, rest, false)
    case Some(m) =>
      ClosedQuote(d, rest, m);
      Quote(d, rest[..m], true)
  }

  lemma ClosedQuote(d: string, rest: string, m: nat)
    requires Find(rest, d) == Some(m)
    ensures rest == rest[..m] + d + rest[m + |d|..]
    ensures Find(rest[..m] + d, d) == Some(m)
  {
    assert rest == rest[..m] + d + rest[m + |d|..];
    FindInShorter(rest[..m] + d, rest[m + |d|..], d, m);
  }

  lemma OpensDelimiter(d: string, after: string)
    requires Delimiter(d)
    ensures Opens(d + after) == Some(d)
  {
    if DollarTag(d) {
      var s, j := d + after, |d| - 2;
      assert s[1..][j] == d[j + 1] && forall k :: 0 <= k < j ==> s[1..][k] == d[k + 1];
      assert FindChar(s[1..], '$') == Some(j);
      assert s[..j + 2] == d;
    }
  }

  lemma QuoteIsHead(d: string, rest: string)
    requires Delimiter(d)
    ensures d + rest != "" && Head(d + rest) == QuoteFrom(d, rest)
  {
    OpensDelimiter(d, rest);
    assert (d + rest)[|d|..] == rest;
  }

  /** Only one lexeme fits in front of a given text. */
  lemma OnlyHeadFits(t: Token, after: string)
    requires Fits(t, after)
    ensures Head(Print(t) + after) == t
  {
    match t
    case Plain(c) =>
      PlainIsHead(c, after);
    case Cut => CutIsHead(after);
    case Quote(d, b, closed) =>
      OnlyQuoteFits(d, b, closed, after);
      QuoteIsHead(d, b + (if closed then d else "") + after);
      PrintedQuote(d, b, if closed then d else "", after);
  }

  lemma PrintedQuote(d: string, b: string, end: string, after: string)
    ensures d + b + end + after == d + (b + end + after)
  {
  }

  lemma CutIsHead(after: string)
    ensures Head(";" + after) == Cut
  {
  }

  lemma PlainIsHead(c: char, after: string)
    requires Fits(Plain(c), after)
    ensures Head([c] + after) == Plain(c)
  {
    assert ([c] + after)[1..] == after;
  }

  lemma OnlyQuoteFits(d: string, b: string, closed: bool, after: string)
    requires Fits(Quote(d, b, closed), after)
    ensures QuoteFrom(d, b + (if closed then d else "") + after) == Quote(d, b, closed)
  {
    if closed {
      FindInLonger(b + d, after, d, |b|);
      assert (b + d + after)[..|b|] == b;
    } else {
      assert b + "" + after == b;
    }
  }

  function Lex(s: string): seq<Token>
    decreases |s|
  {
    if s == "" then [] else [Head(s)] + Lex(s[|Print(Head(s))|..])
  }

  /** A correct decomposition: every lexeme fits what follows it. */
  predicate Grammatical(ts: seq<Token>)
  {
    ts == [] || (Fits(ts[0], PrintAll(ts[1..])) && Grammatical(ts[1..]))
  }

  lemma GrammaticalCons(t: Token, ts: seq<Token>)
    requires Grammatical(ts) && Fits(t, PrintAll(ts))
    ensures Grammatical([t] + ts) && PrintAll([t] + ts) == Print(t) + PrintAll(ts)
  {
    assert ([t] + ts)[1..] == ts;
  }

  /** The lexer's result is grammatical and prints back to its input ... */
  lemma {:induction false} LexIsGrammatical(s: string)
    ensures Grammatical(Lex(s)) && PrintAll(Lex(s)) == s
    decreases |s|
  {
    if s != "" {
      var t := Head(s);
      var rest := s[|Print(t)|..];
      LexIsGrammatical(rest);
      GrammaticalCons(t, Lex(rest));
      assert s == Print(t) + rest;
    }
  }

  lemma LexCons(t: Token, after: string)
    requires Fits(t, after)
    ensures Lex(Print(t) + after) == [t] + Lex(after)
  {
    OnlyHeadFits(t, after);
    assert (Print(t) + after)[|Print(t)|..] == after;
  }

  /** ... and nothing else is: the grammar determines the lexemes of every text, open quotes included. */
  lemma {:induction false} GrammarDetermines(ts: seq<Token>)
    requires Grammatical(ts)
    ensures Lex(PrintAll(ts)) == ts
  {
    if ts != [] {
      GrammarDetermines(ts[1..]);
      LexCons(ts[0], PrintAll(ts[1..]));
    }
  }

  /** Raw statements: the printed lexemes between the cuts. */
  function Segments(ts: seq<Token>): (segments: seq<string>)
    ensures |segments| >= 1
  {
    if ts == [] then [""]
    else
      var rest := Segments(ts[1..]);
      if ts[0].Cut? then [""] + rest else [Print(ts[0]) + rest[0]] + rest[1..]
  }

  function Clean(segment: string): seq<string>
  {
    if TrimSpace(segment) == "" then [] else [TrimSpace(segment)]
  }

  function CleanAll(segments: seq<string>): seq<string>
  {
    if segments == [] then [] else Clean(segments[0]) + CleanAll(segments[1..])
  }

  /** The statements of a text: its raw segments trimmed, empty ones dropped. */
  function Statements(s: string): seq<string>
  {
    CleanAll(Segments(Lex(s)))
  }

  /** Nothing is lost or invented: the raw segments joined with ";" are the input. */
  lemma {:induction false} SegmentsJoinBack(ts: seq<Token>)
    ensures Join(Segments(ts), ';') == PrintAll(ts)
  {
    if ts != [] {
      var rest := Segments(ts[1..]);
      SegmentsJoinBack(ts[1..]);
      assert Segments(ts)[1..] == if ts[0].Cut? then rest else rest[1..];
    }
  }

  /** The statements come from the segments at these places, in order, and all other segments are blank. */
  ghost predicate CleanedFrom(segments: seq<string>, statements: seq<string>, places: seq<nat>)
  {
    && |places| == |statements| && (forall i, j :: 0 <= i < j < |places| ==> places[i] < places[j])
    && (forall i :: 0 <= i < |places| ==>
          places[i] < |segments| && TrimSpace(segments[places[i]]) == statements[i] != "")
    && forall k :: 0 <= k < |segments| && TrimSpace(segments[k]) != "" ==> k in places
  }

  lemma {:induction false} CleaningKeepsOrder(segments: seq<string>) returns (places: seq<nat>)
    ensures CleanedFrom(segments, CleanAll(segments), places)
  {
    if segments == [] {
      return [];
    }
    var n := |segments| - 1;
    var front, last := segments[..n], segments[n];
    places := CleaningKeepsOrder(front);
    CleanOneMore(front, last);
    assert segments == front + [last];
    hide CleanAll, TrimSpace, CleanedFrom;
    if TrimSpace(last) != "" {
      OnePlaceMore(segments, CleanAll(front), places, TrimSpace(last));
      places := places + [n];
    } else {
      NoPlaceMore(segments, CleanAll(front), places);
      assert CleanAll(segments) == CleanAll(front);
    }
  }

  lemma NoPlaceMore(segments: seq<string>, statements: seq<string>, places: seq<nat>)
    requires segments != [] && CleanedFrom(segments[..|segments| - 1], statements, places)
    requires TrimSpace(segments[|segments| - 1]) == ""
    ensures CleanedFrom(segments, statements, places)
  {
    hide TrimSpace;
    var n := |segments| - 1;
    assert forall k :: 0 <= k < n ==> segments[..n][k] == segments[k];
  }

  lemma OnePlaceMore(segments: seq<string>, statements: seq<string>, places: seq<nat>, last: string)
    requires segments != [] && CleanedFrom(segments[..|segments| - 1], statements, places)
    requires last == TrimSpace(segments[|segments| - 1]) != ""
    ensures CleanedFrom(segments, statements + [last], places + [|segments| - 1])
  {
    hide TrimSpace;
    var n := |segments| - 1;
    assert forall k :: 0 <= k < n ==> segments[..n][k] == segments[k];
  }

  /**
   Nothing but blanks at the ends is lost, and nothing is invented: the statements are the segments that
   say something.
   */
  lemma SplitConservation(s: string) returns (places: seq<nat>)
    ensures Join(Segments(Lex(s)), ';') == s
    ensures CleanedFrom(Segments(Lex(s)), Statements(s), places)
  {
    LexIsGrammatical(s);
    SegmentsJoinBack(Lex(s));
    places := CleaningKeepsOrder(Segments(Lex(s)));
  }

  /** The raw segments of `r` when `current` has been collected before it. */
  ghost function Raw(r: string, current: string): seq<string>
    decreases |r|
  {
    if r == "" then [current]
    else if r[0] == ';' then [current] + Raw(r[1..], "")
    else Raw(r[|Print(Head(r))|..], current + Print(Head(r)))
  }

  /** The text `current` in front of the first segment. */
  ghost function Prepended(current: string, segments: seq<string>): seq<string>
    requires segments != []
  {
    [current + segments[0]] + segments[1..]
  }

  lemma PrependedTwice(current: string, printed: string, segments: seq<string>)
    requires segments != []
    ensures Prepended(current, Prepended(printed, segments)) == Prepended(current + printed, segments)
  {
    assert current + (printed + segments[0]) == current + printed + segments[0];
  }

  lemma PrependedNothing(current: string, segments: seq<string>)
    requires segments != []
    ensures Prepended("", segments) == segments && Prepended(current, [""] + segments) == [current] + segments
  {
    assert "" + segments[0] == segments[0] && current + "" == current;
  }

  lemma SegmentsCons(t: Token, ts: seq<Token>)
    ensures Segments([t] + ts) == if t.Cut? then [""] + Segments(ts) else Prepended(Print(t), Segments(ts))
  {
    assert ([t] + ts)[1..] == ts;
  }

  lemma {:induction false} RawPrepends(r: string, current: string)
    ensures Raw(r, current) == Prepended(current, Segments(Lex(r)))
    decreases |r|
  {
    if r == "" {
      assert current + "" == current;
    } else {
      var t, after := Head(r), r[|Print(Head(r))|..];
      var rest := Segments(Lex(after));
      SegmentsCons(t, Lex(after));
      if r[0] == ';' {
        RawPrepends(after, "");
        PrependedNothing(current, rest);
      } else {
        RawPrepends(after, current + Print(t));
        PrependedTwice(current, Print(t), rest);
      }
    }
  }

  lemma RawFromNothing(s: string)
    ensures Raw(s, "") == Segments(Lex(s))
  {
    RawPrepends(s, "");
    PrependedNothing("", Segments(Lex(s)));
  }

  /**
   The raw segments still to come when `current` has been collected and a quote with delimiter `delim`
   ("" for none) is open.
   */
  ghost function Pending(delim: string, r: string, current: string): seq<string>
  {
    Resumed(Raw, delim, r, current)
  }

  /** What `raw` makes of the text behind the open quote. */
  ghost function Resumed(raw: (string, string) -> seq<string>, delim: string, r: string, current: string): seq<string>
  {
    if delim == "" then raw(r, current)
    else match Find(r, delim)
      case Some(m) => raw(r[m + |delim|..], current + r[..m + |delim|])
      case None => [current + r]
  }

  lemma NotAtHead(r: string, d: string)
    ensures OccursAt(r, d, 0) <==> d <= r
  {
    if |d| <= |r| { assert r[0..0 + |d|] == r[..|d|]; }
  }

  lemma PendingInside(delim: string, r: string, current: string)
    requires delim != "" && r != "" && !(delim <= r)
    ensures Pending(delim, r, current) == Pending(delim, r[1..], current + [r[0]])
  {
    NotAtHead(r, delim);
    FindInRest(r, delim);
    ResumedFurther(Raw, delim, r, current);
  }

  lemma ResumedFurther(raw: (string, string) -> seq<string>, delim: string, r: string, current: string)
    requires delim != "" && r != ""
    requires Find(r, delim) == match Find(r[1..], delim) case None => None case Some(m) => Some(m + 1)
    ensures Resumed(raw, delim, r, current) == Resumed(raw, delim, r[1..], current + [r[0]])
  {
    match Find(r[1..], delim)
    case Some(m) => SliceStep(r, current, m + |delim|);
    case None => CollectsRest(r, current);
  }

  lemma CollectsRest(r: string, current: string)
    requires r != ""
    ensures current + r == current + [r[0]] + r[1..]
  {
  }

  lemma SliceStep(r: string, current: string, n: nat)
    requires n < |r|
    ensures r[1..][n..] == r[n + 1..]
    ensures current + r[..n + 1] == current + [r[0]] + r[1..][..n]
  {
  }

  lemma ResumedCloses(raw: (string, string) -> seq<string>, d: string, rest: string, current: string)
    requires d != ""
    ensures Resumed(raw, d, d + rest, current) == Resumed(raw, "", rest, current + d)
  {
    assert (d + rest)[0..0 + |d|] == d;
    FirstIsUnique(d + rest, d, 0);
  }

  lemma PendingCloses(d: string, rest: string, current: string)
    requires d != ""
    ensures Pending(d, d + rest, current) == Pending("", rest, current + d)
  {
    ResumedCloses(Raw, d, rest, current);
  }

  lemma RawStep(t: Token, rest: string, current: string)
    requires Print(t) != "" && Print(t)[0] != ';' && Head(Print(t) + rest) == t
    ensures Raw(Print(t) + rest, current) == Raw(rest, current + Print(t))
  {
    hide Head;
    assert (Print(t) + rest)[|Print(t)|..] == rest;
  }

  lemma PendingOpens(d: string, rest: string, current: string)
    requires Delimiter(d)
    ensures Pending("", d + rest, current) == Pending(d, rest, current + d)
  {
    hide Raw, Head;
    QuoteIsHead(d, rest);
    var t := QuoteFrom(d, rest);
    var after := if t.closed then rest[|t.body| + |d|..] else "";
    assert d + rest == Print(t) + after by {
      PrintedQuote(d, t.body, if t.closed then d else "", after);
      assert t.closed ==> rest == t.body + d + after;
      assert !t.closed ==> rest == t.body + "" + after;
    }
    RawStep(t, after, current);
    if t.closed {
      PendingClosedQuote(d, t.body, rest, after, current);
    } else {
      PendingOpenQuote(d, rest, after, current);
    }
  }

  lemma PendingOpenQuote(d: string, rest: string, after: string, current: string)
    requires d != "" && Find(rest, d) == None && after == ""
    ensures Pending(d, rest, current + d) == Raw(after, current + Print(Quote(d, rest, false)))
  {
    assert current + d + rest == current + (d + rest + "");
  }

  lemma PendingClosedQuote(d: string, b: string, rest: string, after: string, current: string)
    requires d != "" && Find(rest, d) == Some(|b|) && rest == b + d + after
    ensures Pending(d, rest, current + d) == Raw(after, current + Print(Quote(d, b, true)))
  {
    assert rest[|b| + |d|..] == after;
    assert current + d + rest[..|b| + |d|] == current + (d + b + d);
  }

  lemma PendingPlain(r: string, current: string)
    requires r != "" && Opens(r).None?
    ensures Pending("", r, current) ==
            if r[0] == ';' then [current] + Pending("", r[1..], "") else Pending("", r[1..], current + [r[0]])
  {
  }

  lemma PendingAtEnd(delim: string, current: string)
    ensures Pending(delim, "", current) == [current]
  {
    assert current + "" == current;
    assert delim != "" ==> Find("", delim) == None;
  }

  lemma CleanCons(first: string, rest: seq<string>)
    ensures CleanAll([first] + rest) == Clean(first) + CleanAll(rest)
  {
    assert ([first] + rest)[1..] == rest;
  }

  lemma {:induction false} CleanOneMore(done: seq<string>, segment: string)
    ensures CleanAll(done + [segment]) == CleanAll(done) + Clean(segment)
  {
    if done == [] {
      CleanCons(segment, []);
      assert done + [segment] == [segment] + [];
    } else {
      CleanOneMore(done[1..], segment);
      CleanCons(done[0], done[1..] + [segment]);
      FirstApart(done, segment);
    }
  }

  lemma FirstApart(done: seq<string>, segment: string)
    requires done != []
    ensures done + [segment] == [done[0]] + (done[1..] + [segment])
  {
  }

  /** A scanner's position: the raw segments cut off so far, the next index, the open delimiter, the collected text. */
  datatype Place = Place(done: seq<string>, i: nat, delim: string, current: string)

  /** What the scanner still finds from `p` on completes what it has cut off to `all`. */
  ghost predicate Owes(all: seq<string>, query: string, p: Place)
  {
    p.i <= |query| && all == p.done + Pending(p.delim, query[p.i..], p.current)
  }

  /** `owes` is `Owes` under a name that the scanning loop need not look behind. */
  ghost predicate Stands(owes: Place -> bool, all: seq<string>, query: string)
  {
    forall p {:trigger Owes(all, query, p)} :: owes(p) == Owes(all, query, p)
  }

  /** `e` is the next dollar after the one at `i`. */
  ghost predicate NextDollarAt(query: string, i: nat, e: nat)
  {
    i < e < |query| && query[i] == '$' && query[e] == '$' && forall k :: i < k < e ==> query[k] != '$'
  }

  lemma TagAt(query: string, i: nat, e: nat, tag: string)
    requires NextDollarAt(query, i, e) && tag == query[i..e + 1]
    ensures DollarTag(tag)
  {
  }

  lemma TailSplits(query: string, i: nat, n: nat)
    requires i <= n <= |query|
    ensures query[i..] == query[i..n] + query[n..]
  {
  }

  lemma OpensAt(query: string, i: nat, d: string, n: nat, current: string)
    requires i <= n <= |query| && Delimiter(d) && query[i..n] == d
    ensures Pending("", query[i..], current) == Pending(d, query[n..], current + d)
  {
    TailSplits(query, i, n);
    PendingOpens(d, query[n..], current);
  }

  lemma ClosesAt(query: string, i: nat, d: string, n: nat, current: string)
    requires i <= n <= |query| && d != "" && query[i..n] == d
    ensures Pending(d, query[i..], current) == Pending("", query[n..], current + d)
  {
    TailSplits(query, i, n);
    PendingCloses(d, query[n..], current);
  }

  lemma Moves(owes: Place -> bool, all: seq<string>, query: string, p: Place, q: Place)
    requires Stands(owes, all, query) && owes(p) && p.i <= |query| && q.i <= |query| && p.done == q.done
    requires Pending(p.delim, query[p.i..], p.current) == Pending(q.delim, query[q.i..], q.current)
    ensures owes(q)
  {
    assert Owes(all, query, p) && Owes(all, query, q);
  }

  /**
   At a dollar, reading up to the next dollar and comparing the whole tag finds the delimiter exactly
   where it stands.
   */
  lemma TagMatches(query: string, i: nat, e: nat, d: string)
    requires NextDollarAt(query, i, e) && DollarTag(d) && d <= query[i..]
    ensures query[i..e + 1] == d
  {
    assert query[i..][|d| - 1] == '$';
    assert forall k :: i < k < i + |d| - 1 ==> query[k] == d[k - i];
    assert e == i + |d| - 1;
  }

  lemma NoDollarAhead(query: string, i: nat, d: string)
    requires i < |query| && query[i] == '$' && forall k :: i < k < |query| ==> query[k] != '$'
    ensures Opens(query[i..]) == None
    ensures DollarTag(d) ==> !(d <= query[i..])
  {
    var r := query[i..];
    assert FindChar(r[1..], '$') == None;
    if DollarTag(d) && |d| <= |r| {
      assert r[|d| - 1] == query[i + |d| - 1];
    }
  }

  lemma QuoteOpens(owes: Place -> bool, all: seq<string>, query: string, p: Place)
    requires Stands(owes, all, query) && owes(p)
    requires p.i < |query| && p.delim == "" && (query[p.i] == '\'' || query[p.i] == '"')
    ensures owes(Place(p.done, p.i + 1, [query[p.i]], p.current + [query[p.i]]))
  {
    OpensAt(query, p.i, [query[p.i]], p.i + 1, p.current);
    Moves(owes, all, query, p, Place(p.done, p.i + 1, [query[p.i]], p.current + [query[p.i]]));
  }

  lemma QuoteCloses(owes: Place -> bool, all: seq<string>, query: string, p: Place)
    requires Stands(owes, all, query) && owes(p)
    requires p.i < |query| && p.delim == [query[p.i]]
    ensures owes(Place(p.done, p.i + 1, "", p.current + [query[p.i]]))
  {
    ClosesAt(query, p.i, p.delim, p.i + 1, p.current);
    Moves(owes, all, query, p, Place(p.done, p.i + 1, "", p.current + [query[p.i]]));
  }

  lemma TagOpens(owes: Place -> bool, all: seq<string>, query: string, p: Place, e: nat, tag: string)
    requires Stands(owes, all, query) && owes(p)
    requires p.i <= e < |query| && p.delim == "" && tag == query[p.i..e + 1] && DollarTag(tag)
    ensures owes(Place(p.done, e + 1, tag, p.current + tag))
  {
    OpensAt(query, p.i, tag, e + 1, p.current);
    Moves(owes, all, query, p, Place(p.done, e + 1, tag, p.current + tag));
  }

  lemma TagCloses(owes: Place -> bool, all: seq<string>, query: string, p: Place, e: nat)
    requires Stands(owes, all, query) && owes(p)
    requires p.i <= e < |query| && p.delim == query[p.i..e + 1]
    ensures owes(Place(p.done, e + 1, "", p.current + p.delim))
  {
    ClosesAt(query, p.i, p.delim, e + 1, p.current);
    Moves(owes, all, query, p, Place(p.done, e + 1, "", p.current + p.delim));
  }

  /** A character that neither opens nor closes a quote. */
  ghost predicate Inert(query: string, i: nat, delim: string)
  {
    && i < |query|
    && (delim == "" ==> query[i] != '\'' && query[i] != '"')
    && (delim == "'" || delim == "\"" ==> query[i] != delim[0])
    && (query[i] == '$' && delim != "'" && delim != "\"" ==>
          || (forall k :: i < k < |query| ==> query[k] != '$')
          || (delim != "" && exists e :: NextDollarAt(query, i, e) && query[i..e + 1] != delim))
  }

  lemma InertMeans(query: string, i: nat, delim: string)
    requires Inert(query, i, delim) && (delim == "" || Delimiter(delim))
    ensures if delim == "" then Opens(query[i..]) == None else !(delim <= query[i..])
  {
    if query[i] == '$' && delim != "'" && delim != "\"" {
      if forall k :: i < k < |query| ==> query[k] != '$' {
        NoDollarAhead(query, i, delim);
      } else {
        var e :| NextDollarAt(query, i, e) && query[i..e + 1] != delim;
        if delim <= query[i..] { TagMatches(query, i, e, delim); }
      }
    }
  }

  /** An inert character is collected, unless it is a semicolon outside quotes. */
  lemma Collects(owes: Place -> bool, all: seq<string>, query: string, p: Place)
    requires Stands(owes, all, query) && owes(p)
    requires Inert(query, p.i, p.delim) && (p.delim == "" || Delimiter(p.delim))
    ensures owes(if p.delim == "" && query[p.i] == ';' then Place(p.done + [p.current], p.i + 1, "", "")
                 else Place(p.done, p.i + 1, p.delim, p.current + [query[p.i]]))
  {
    assert Owes(all, query, p);
    InertMeans(query, p.i, p.delim);
    assert query[p.i..][1..] == query[p.i + 1..];
    if p.delim == "" {
      PendingPlain(query[p.i..], p.current);
      Reassociate(p.done, p.current, Pending("", query[p.i + 1..], ""));
    } else {
      PendingInside(p.delim, query[p.i..], p.current);
    }
    assert Owes(all, query, if p.delim == "" && query[p.i] == ';' then Place(p.done + [p.current], p.i + 1, "", "")
                            else Place(p.done, p.i + 1, p.delim, p.current + [query[p.i]]));
  }

  lemma Reassociate(done: seq<string>, current: string, todo: seq<string>)
    ensures done + ([current] + todo) == done + [current] + todo
  {
  }

  lemma OwesAtStart(query: string)
    ensures Owes(Segments(Lex(query)), query, Place([], 0, "", ""))
  {
    RawFromNothing(query);
    assert query[0..] == query;
  }

  lemma Finishes(owes: Place -> bool, all: seq<string>, query: string, p: Place)
    requires Stands(owes, all, query) && owes(p) && p.i == |query|
    ensures all == p.done + [p.current]
  {
    assert Owes(all, query, p);
    PendingAtEnd(p.delim, p.current);
  }

  /** The delimiter of the open quote according to the scanner's flags. */
  ghost function OpenDelim(inSingleQuote: bool, inDoubleQuote: bool, dollarTag: string): string
  {
    if inSingleQuote then "'" else if inDoubleQuote then "\"" else dollarTag
  }

  /** At most one quoting mode is on, and the dollar mode is on exactly when there is a tag. */
  ghost predicate ModesAgree(inSingleQuote: bool, inDoubleQuote: bool, inDollarQuote: bool, dollarTag: string)
  {
    && !(inSingleQuote && inDoubleQuote) && !(inSingleQuote && inDollarQuote) && !(inDoubleQuote && inDollarQuote)
    && (inDollarQuote <==> dollarTag != "")
    && (inDollarQuote ==> DollarTag(dollarTag))
  }

  method SplitStatements(query: string) returns (statements: seq<string>)
    ensures statements == Statements(query)
  {
    ghost var all := Segments(Lex(query));
    OwesAtStart(query);
    statements := Scan(query, all, p => Owes(all, query, p));
  }

  /** The scanning loop, for whatever raw segments `all` it owes at its start. */
  method Scan(query: string, ghost all: seq<string>, ghost owes: Place -> bool) returns (statements: seq<string>)
    requires Stands(owes, all, query) && owes(Place([], 0, "", ""))
    ensures statements == CleanAll(all)
  {
    statements := [];
    var current := "";
    var inSingleQuote, inDoubleQuote, inDollarQuote := false, false, false;
    var dollarTag := "";
    ghost var done := [];
    var i := 0;
    assert CleanAll(done) == [];
    hide CleanAll, TrimSpace, Stands;
    while i < |query|
      invariant 0 <= i <= |query|
      invariant ModesAgree(inSingleQuote, inDoubleQuote, inDollarQuote, dollarTag)
      invariant owes(Place(done, i, OpenDelim(inSingleQuote, inDoubleQuote, dollarTag), current))
      invariant statements == CleanAll(done)
    {
      var ch := query[i];
      ghost var here := Place(done, i, OpenDelim(inSingleQuote, inDoubleQuote, dollarTag), current);
      if ch == '$' && !inSingleQuote && !inDoubleQuote {
        var tagEnd := i + 1;
        while tagEnd < |query| && query[tagEnd] != '$'
          invariant i + 1 <= tagEnd <= |query|
          invariant forall k :: i < k < tagEnd ==> query[k] != '$'
        {
          tagEnd := tagEnd + 1;
        }
        if tagEnd < |query| {
          var currentTag := query[i..tagEnd + 1];
          if !inDollarQuote {
            TagAt(query, i, tagEnd, currentTag);
            TagOpens(owes, all, query, here, tagEnd, currentTag);
            inDollarQuote := true;
            dollarTag := currentTag;
            current := current + currentTag;
            i := tagEnd + 1;
            continue;
          } else if currentTag == dollarTag {
            TagCloses(owes, all, query, here, tagEnd);
            inDollarQuote := false;
            current := current + currentTag;
            dollarTag := "";
            i := tagEnd + 1;
            continue;
          }
          assert NextDollarAt(query, i, tagEnd);
        }
      }
      if ch == '\'' && !inDoubleQuote && !inDollarQuote {
        if inSingleQuote { QuoteCloses(owes, all, query, here); } else { QuoteOpens(owes, all, query, here); }
        inSingleQuote := !inSingleQuote;
        current := current + [ch];
        i := i + 1;
        continue;
      }
      if ch == '"' && !inSingleQuote && !inDollarQuote {
        if inDoubleQuote { QuoteCloses(owes, all, query, here); } else { QuoteOpens(owes, all, query, here); }
        inDoubleQuote := !inDoubleQuote;
        current := current + [ch];
        i := i + 1;
        continue;
      }
      Collects(owes, all, query, here);
      if ch == ';' && !inSingleQuote && !inDoubleQuote && !inDollarQuote {
        var stmt := TrimSpace(current);
        if stmt != "" {
          statements := statements + [stmt];
        }
        CleanOneMore(done, current);
        done := done + [current];
        current := "";
        i := i + 1;
        continue;
      }
      current := current + [ch];
      i := i + 1;
    }
    Finishes(owes, all, query, Place(done, i, OpenDelim(inSingleQuote, inDoubleQuote, dollarTag), current));
    CleanOneMore(done, current);
    var stmt := TrimSpace(current);
    if stmt != "" {
      statements := statements + [stmt];
    }
  }
}
