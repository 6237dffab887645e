/** Quoting of possibly schema-qualified PostgreSQL identifiers for the change detection query. */
module PgIdentifiers {
  import opened Text

  datatype IdError = EmptyIdentifier | EmptyPart | EmptyQuotedPart | NullByte | InvalidPart(part: string)
  datatype Result<+T> = Ok(value: T) | Err(error: IdError)

  predicate IsLetter(c: char)
  {
    'a' <= c <= 'z' || 'A' <= c <= 'Z'
  }

  /** ^[a-zA-Z_][a-zA-Z0-9_$]*$ */
  predicate IsUnquotedId(part: string)
  {
    && part != "" && (IsLetter(part[0]) || part[0] == '_')
    && forall i :: 1 <= i < |part| ==> IsLetter(part[i]) || '0' <= part[i] <= '9' || part[i] == '_' || part[i] == '$'
  }

  function DoubleQuotes(s: string): string
  {
    if s == "" then "" else (if s[0] == '"' then "\"\"" else [s[0]]) + DoubleQuotes(s[1..])
  }

  function QuotePGIdentifier(part: string): Result<string>
  {
    if part == "" then Err(EmptyPart)
    else if '\0' in part then Err(NullByte)
    else Ok("\"" + DoubleQuotes(part) + "\"")
  }

  /** Section 4.1.1 of the PostgreSQL documentation: a quoted identifier, in which each quote is written twice. */
  function Unquote(text: string): Option<string>
  {
    if |text| >= 2 && text[0] == '"' && text[|text| - 1] == '"' then UndoubleQuotes(text[1..|text| - 1]) else None
  }

  function UndoubleQuotes(s: string): Option<string>
  {
    if s == "" then Some("")
    else if s[0] != '"' then
      match UndoubleQuotes(s[1..])
      case Some(t) => Some([s[0]] + t)
      case None => None
    else if |s| >= 2 && s[1] == '"' then
      match UndoubleQuotes(s[2..])
      case Some(t) => Some("\"" + t)
      case None => None
    else None
  }

  /** Doubling is undone by undoubling, and undoubling succeeds on nothing else. */
  lemma {:induction false} DoublingRoundTrip(s: string)
    ensures UndoubleQuotes(DoubleQuotes(s)) == Some(s)
  {
    if s != "" {
      DoublingRoundTrip(s[1..]);
      var d := DoubleQuotes(s);
      if s[0] == '"' {
        assert d[2..] == DoubleQuotes(s[1..]);
      } else {
        assert d[1..] == DoubleQuotes(s[1..]);
      }
      assert s == [s[0]] + s[1..];
    }
  }

  lemma {:induction false} UndoublingRoundTrip(s: string)
    requires UndoubleQuotes(s).Some?
    ensures DoubleQuotes(UndoubleQuotes(s).value) == s
    decreases |s|
  {
    if s != "" {
      var t := UndoubleQuotes(s).value;
      if s[0] != '"' {
        UndoublingRoundTrip(s[1..]);
        assert t[1..] == UndoubleQuotes(s[1..]).value;
        assert s == [s[0]] + s[1..];
      } else {
        UndoublingRoundTrip(s[2..]);
        assert t[1..] == UndoubleQuotes(s[2..]).value;
        assert s == "\"\"" + s[2..];
      }
    }
  }

  lemma Delimited(inner: string)
    ensures var q := "\"" + inner + "\""; |q| >= 2 && q[0] == '"' == q[|q| - 1] && q[1..|q| - 1] == inner
  {
  }

  lemma Enclosed(q: string)
    requires |q| >= 2 && q[0] == '"' && q[|q| - 1] == '"'
    ensures q == "\"" + q[1..|q| - 1] + "\""
  {
  }

  /**
   PostgreSQL reads back what was quoted, for every name it can hold; and whatever it reads as such a
   name is the quoted form of it.
   */
  lemma QuotingRoundTrip(part: string, q: string)
    ensures QuotePGIdentifier(part) == Ok(q) <==> part != "" && '\0' !in part && Unquote(q) == Some(part)
  {
    if part != "" && '\0' !in part {
      hide DoubleQuotes, UndoubleQuotes;
      Delimited(DoubleQuotes(part));
      DoublingRoundTrip(part);
      if Unquote(q).Some? {
        UndoublingRoundTrip(q[1..|q| - 1]);
        Enclosed(q);
      }
    }
  }

  predicate IsQuotedForm(part: string)
  {
    |part| >= 2 && part[0] == '"' && part[|part| - 1] == '"'
  }

  function Inner(part: string): string
    requires IsQuotedForm(part)
  {
    part[1..|part| - 1]
  }

  function SanitizePart(part: string): Result<string>
  {
    if part == "" then Err(EmptyPart)
    else if IsQuotedForm(part) then
      if Inner(part) == "" then Err(EmptyQuotedPart)
      else if '\0' in Inner(part) then Err(NullByte)
      else Ok(part)
    else if !IsUnquotedId(part) then Err(InvalidPart(part))
    else QuotePGIdentifier(part)
  }

  /** The parts one by one, or the first failure. */
  function SanitizeParts(parts: seq<string>): Result<seq<string>>
  {
    if parts == [] then Ok([])
    else match SanitizeParts(parts[..|parts| - 1])
      case Err(e) => Err(e)
      case Ok(done) =>
        match SanitizePart(parts[|parts| - 1])
        case Err(e) => Err(e)
        case Ok(last) => Ok(done + [last])
  }

  /** The parts are sanitised one by one, in order. */
  ghost predicate Sanitized(parts: seq<string>, r: Result<seq<string>>)
  {
    && (r.Ok? <==> forall i :: 0 <= i < |parts| ==> SanitizePart(parts[i]).Ok?)
    && (r.Ok? ==> |r.value| == |parts| && forall i :: 0 <= i < |parts| ==> Ok(r.value[i]) == SanitizePart(parts[i]))
  }

  lemma SanitizedOneMore(front: seq<string>, r: Result<seq<string>>, last: string, parts: seq<string>,
                         r': Result<seq<string>>)
    requires Sanitized(front, r) && parts == front + [last]
    requires r' == match r case Err(e) => Err(e) case Ok(done) =>
                     match SanitizePart(last) case Err(e) => Err(e) case Ok(q) => Ok(done + [q])
    ensures Sanitized(parts, r')
  {
    assert forall i :: 0 <= i < |front| ==> parts[i] == front[i];
    assert parts[|front|] == last;
  }

  lemma {:induction false} SanitizedParts(parts: seq<string>)
    ensures Sanitized(parts, SanitizeParts(parts))
  {
    if parts != [] {
      var front, last := parts[..|parts| - 1], parts[|parts| - 1];
      SanitizedParts(front);
      SanitizedOneMore(front, SanitizeParts(front), last, parts, SanitizeParts(parts));
    }
  }

  function Sanitize(identifier: string): Result<string>
  {
    if identifier == "" then Err(EmptyIdentifier)
    else match SanitizeParts(Split(identifier, '.'))
      case Err(e) => Err(e)
      case Ok(parts) => Ok(Join(parts, '.'))
  }

  /** One part more: the loop of the sanitiser in one step. */
  lemma SanitizeOneMore(parts: seq<string>, k: nat)
    requires k < |parts| && SanitizeParts(parts[..k]).Ok?
    ensures match SanitizePart(parts[k])
            case Err(e) => SanitizeParts(parts) == Err(e)
            case Ok(q) => SanitizeParts(parts[..k + 1]) == Ok(SanitizeParts(parts[..k]).value + [q])
  {
    assert parts[..k + 1][..k] == parts[..k];
    FailureStays(parts, k + 1);
  }

  lemma {:induction false} FailureStays(parts: seq<string>, k: nat)
    requires k <= |parts|
    ensures SanitizeParts(parts[..k]).Err? ==> SanitizeParts(parts) == SanitizeParts(parts[..k])
    decreases |parts| - k
  {
    if k == |parts| {
      assert parts[..k] == parts;
    } else {
      FailureStays(parts, k + 1);
      assert parts[..k + 1][..k] == parts[..k];
    }
  }

  method SanitizePGIdentifier(identifier: string) returns (r: Result<string>)
    ensures r == Sanitize(identifier)
  {
    if identifier == "" {
      return Err(EmptyIdentifier);
    }
    var parts := Split(identifier, '.');
    var result := [];
    for k := 0 to |parts|
      invariant SanitizeParts(parts[..k]) == Ok(result)
    {
      var part := parts[k];
      SanitizeOneMore(parts, k);
      if part == "" {
        return Err(EmptyPart);
      }
      if IsQuotedForm(part) {
        var inner := part[1..|part| - 1];
        if inner == "" {
          return Err(EmptyQuotedPart);
        }
        if '\0' in inner {
          return Err(NullByte);
        }
        result := result + [part];
      } else {
        if !IsUnquotedId(part) {
          return Err(InvalidPart(part));
        }
        var quoted := QuotePGIdentifier(part);
        match quoted {
          case Err(e) => return Err(e);
          case Ok(q) => result := result + [q];
        }
      }
    }
    assert parts[..|parts|] == parts;
    r := Ok(Join(result, '.'));
  }

  lemma {:induction false} DoublingUnquoted(s: string)
    requires '"' !in s
    ensures DoubleQuotes(s) == s
  {
    if s != "" {
      DoublingUnquoted(s[1..]);
      assert s == [s[0]] + s[1..];
    }
  }

  /**
   A sanitised part is a quoted form that sanitises to itself, keeps dots out, and decodes to the part
   if that was bare.
   */
  lemma SanitizedPart(part: string)
    requires SanitizePart(part).Ok? && '.' !in part
    ensures var q := SanitizePart(part).value;
      && IsQuotedForm(q) && '.' !in q && SanitizePart(q) == Ok(q)
      && (IsQuotedForm(part) ==> q == part)
      && (!IsQuotedForm(part) ==> q == "\"" + part + "\"" && Unquote(q) == Some(part))
  {
    if !IsQuotedForm(part) {
      assert '"' !in part && '\0' !in part;
      DoublingUnquoted(part);
      QuotingRoundTrip(part, QuotePGIdentifier(part).value);
      var q := "\"" + part + "\"";
      assert Inner(q) == part;
    }
  }

  /** A bare name, or a non-empty quoted form without NUL. */
  predicate Acceptable(part: string)
  {
    IsUnquotedId(part) || (IsQuotedForm(part) && Inner(part) != "" && '\0' !in Inner(part))
  }

  lemma AcceptablePart(part: string)
    ensures SanitizePart(part).Ok? <==> Acceptable(part)
  {
    if IsUnquotedId(part) {
      assert forall k :: 0 <= k < |part| ==> part[k] != '\0' && part[k] != '"';
    }
  }

  /** The identifier is accepted if and only if each of its dotted parts is. */
  lemma AcceptedExactly(identifier: string)
    ensures Sanitize(identifier).Ok? <==> forall part :: part in Split(identifier, '.') ==> Acceptable(part)
  {
    var parts := Split(identifier, '.');
    SanitizedParts(parts);
    forall i | 0 <= i < |parts|
      ensures SanitizePart(parts[i]).Ok? <==> Acceptable(parts[i])
    {
      AcceptablePart(parts[i]);
    }
    if identifier == "" {
      assert "" in parts && !Acceptable("");
    } else if forall part :: part in parts ==> Acceptable(part) {
      assert forall i :: 0 <= i < |parts| ==> parts[i] in parts;
    }
  }

  /** The number and order of the parts survive, and each bare part is decoded to itself. */
  lemma PartsSurvive(identifier: string)
    requires Sanitize(identifier).Ok?
    ensures var parts, out := Split(identifier, '.'), Split(Sanitize(identifier).value, '.');
      && |out| == |parts|
      && forall i :: 0 <= i < |parts| ==>
           if IsQuotedForm(parts[i]) then out[i] == parts[i] else Unquote(out[i]) == Some(parts[i])
  {
    var parts := Split(identifier, '.');
    var quoted := SanitizeParts(parts).value;
    SanitizedParts(parts);
    forall i | 0 <= i < |parts|
      ensures '.' !in quoted[i]
      ensures if IsQuotedForm(parts[i]) then quoted[i] == parts[i] else Unquote(quoted[i]) == Some(parts[i])
    {
      SanitizedPart(parts[i]);
    }
    SplitOfJoin(quoted, '.');
  }

  /** Sanitising what was sanitised changes nothing. */
  lemma SanitizeIsIdempotent(identifier: string)
    requires Sanitize(identifier).Ok?
    ensures Sanitize(Sanitize(identifier).value) == Sanitize(identifier)
  {
    var parts := Split(identifier, '.');
    var quoted := SanitizeParts(parts).value;
    SanitizedParts(parts);
    forall i | 0 <= i < |parts|
      ensures '.' !in quoted[i] && SanitizePart(quoted[i]) == Ok(quoted[i]) && quoted[i] != ""
    {
      SanitizedPart(parts[i]);
    }
    SplitOfJoin(quoted, '.');
    SanitizedParts(quoted);
    assert SanitizeParts(quoted).value == quoted;
    assert Split("", '.') == [""];
  }

  /**
   The result is a sequence of well-formed quoted identifiers if and only if the parts that came
   quoted were: a pre-quoted part is passed through without looking for single quotes inside it.
   */
  lemma DecodableExactly(identifier: string)
    requires Sanitize(identifier).Ok?
    ensures (forall i :: 0 <= i < |Split(Sanitize(identifier).value, '.')| ==>
              Unquote(Split(Sanitize(identifier).value, '.')[i]).Some?)
       <==> (forall i :: 0 <= i < |Split(identifier, '.')| && IsQuotedForm(Split(identifier, '.')[i]) ==>
              UndoubleQuotes(Inner(Split(identifier, '.')[i])).Some?)
  {
    PartsSurvive(identifier);
    var parts, out := Split(identifier, '.'), Split(Sanitize(identifier).value, '.');
    forall i | 0 <= i < |parts|
      ensures Unquote(out[i]).Some? <==> (IsQuotedForm(parts[i]) ==> UndoubleQuotes(Inner(parts[i])).Some?)
    {
    }
  }

  lemma SingleQuoteInsidePassesThrough()
    ensures Sanitize("\"a\"b\"") == Ok("\"a\"b\"") && Unquote("\"a\"b\"") == None
  {
    var s := "\"a\"b\"";
    SplitWithoutSeparator(s, '.');
    assert s[1..|s| - 1] == "a\"b";
    assert "a\"b"[1..] == "\"b";
    assert Inner(s) == "a\"b";
    assert SanitizePart(s) == Ok(s);
    SanitizedParts([s]);
    assert SanitizeParts([s]).value == [s];
  }
}
