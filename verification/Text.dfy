/** Strings the way Go's `strings` package cuts, joins, trims and orders them. */
module Text {

  datatype Option<+T> = None | Some(value: T)

  /** `strings.Split` on a one-character separator. */
  function Split(s: string, sep: char): (parts: seq<string>)
    ensures |parts| >= 1
    ensures forall i :: 0 <= i < |parts| ==> sep !in parts[i]
  {
    if s == "" then [""]
    else if s[0] == sep then [""] + Split(s[1..], sep)
    else Push(s[0], Split(s[1..], sep))
  }

  /** The parts with one more character in front of the first. */
  function Push(c: char, parts: seq<string>): seq<string>
    requires |parts| >= 1
  {
    [[c] + parts[0]] + parts[1..]
  }

  function Join(parts: seq<string>, sep: char): string
  {
    if |parts| == 0 then ""
    else if |parts| == 1 then parts[0]
    else parts[0] + [sep] + Join(parts[1..], sep)
  }

  lemma {:induction false} JoinOfSplit(s: string, sep: char)
    ensures Join(Split(s, sep), sep) == s
  {
    if s != "" {
      var rest := Split(s[1..], sep);
      JoinOfSplit(s[1..], sep);
      if s[0] == sep {
        assert ([""] + rest)[1..] == rest;
      } else {
        assert Push(s[0], rest)[1..] == rest[1..];
      }
      assert s == [s[0]] + s[1..];
    }
  }

  lemma SplitStep(c: char, t: string, sep: char)
    ensures Split([c] + t, sep) == if c == sep then [""] + Split(t, sep) else Push(c, Split(t, sep))
  {
    assert ([c] + t)[1..] == t;
  }

  lemma {:induction false} SplitAtSeparator(a: string, sep: char, b: string)
    ensures Split(a + [sep] + b, sep) == Split(a, sep) + Split(b, sep)
  {
    if a == "" {
      assert a + [sep] + b == [sep] + b;
      SplitStep(sep, b, sep);
    } else {
      SplitAtSeparator(a[1..], sep, b);
      SplitAfterFirst(a[0], a[1..], a[1..] + [sep] + b, b, sep);
      assert a == [a[0]] + a[1..];
      assert a + [sep] + b == [a[0]] + (a[1..] + [sep] + b);
    }
  }

  lemma SplitAfterFirst(c: char, rest: string, tail: string, b: string, sep: char)
    requires Split(tail, sep) == Split(rest, sep) + Split(b, sep)
    ensures Split([c] + tail, sep) == Split([c] + rest, sep) + Split(b, sep)
  {
    SplitStep(c, rest, sep);
    SplitStep(c, tail, sep);
    SplitOnto(c, Split(rest, sep), Split(b, sep));
  }

  lemma SplitOnto(c: char, left: seq<string>, right: seq<string>)
    requires |left| >= 1
    ensures Push(c, left + right) == Push(c, left) + right
    ensures [""] + (left + right) == ([""] + left) + right
  {
  }

  lemma {:induction false} SplitWithoutSeparator(a: string, sep: char)
    requires sep !in a
    ensures Split(a, sep) == [a]
  {
    if a != "" {
      SplitWithoutSeparator(a[1..], sep);
      assert a == [a[0]] + a[1..];
    }
  }

  /** The other half of the round trip: separator-free parts survive joining and splitting. */
  lemma {:induction false} SplitOfJoin(parts: seq<string>, sep: char)
    requires |parts| >= 1
    requires forall i :: 0 <= i < |parts| ==> sep !in parts[i]
    ensures Split(Join(parts, sep), sep) == parts
  {
    SplitWithoutSeparator(parts[0], sep);
    if |parts| > 1 {
      SplitOfJoin(parts[1..], sep);
      SplitAtSeparator(parts[0], sep, Join(parts[1..], sep));
      assert parts == [parts[0]] + parts[1..];
    } else {
      assert parts == [parts[0]];
    }
  }

  /** `unicode.IsSpace`. */
  predicate IsSpace(c: char)
  {
    || c == ' ' || '\t' <= c <= '\r'
    || c == '\U{85}' || c == '\U{A0}' || c == '\U{1680}'
    || '\U{2000}' <= c <= '\U{200A}'
    || c == '\U{2028}' || c == '\U{2029}' || c == '\U{202F}' || c == '\U{205F}' || c == '\U{3000}'
  }

  predicate AllSpace(s: string)
  {
    forall i :: 0 <= i < |s| ==> IsSpace(s[i])
  }

  function TrimLeft(s: string): string
  {
    if s != "" && IsSpace(s[0]) then TrimLeft(s[1..]) else s
  }

  function TrimRight(s: string): string
  {
    if s != "" && IsSpace(s[|s| - 1]) then TrimRight(s[..|s| - 1]) else s
  }

  /** `strings.TrimSpace`. */
  function TrimSpace(s: string): string
  {
    TrimRight(TrimLeft(s))
  }

  /** Text that neither starts nor ends with white space is what trimming leaves alone. */
  predicate Trimmed(s: string)
  {
    s != "" ==> !IsSpace(s[0]) && !IsSpace(s[|s| - 1])
  }

  lemma TrimSpaceFixes(s: string)
    requires Trimmed(s)
    ensures TrimSpace(s) == s
  {
  }

  lemma {:induction false} TrimLeftRemovesPadding(left: string, s: string)
    requires AllSpace(left) && (s != "" ==> !IsSpace(s[0]))
    ensures TrimLeft(left + s) == s
  {
    if left == "" {
      assert left + s == s;
    } else {
      assert (left + s)[1..] == left[1..] + s && (left + s)[0] == left[0];
      assert forall i :: 0 <= i < |left| - 1 ==> left[1..][i] == left[i + 1];
      TrimLeftRemovesPadding(left[1..], s);
    }
  }

  lemma {:induction false} TrimRightRemovesPadding(s: string, right: string)
    requires AllSpace(right) && (s != "" ==> !IsSpace(s[|s| - 1]))
    ensures TrimRight(s + right) == s
  {
    if right == "" {
      assert s + right == s;
    } else {
      var n := |right| - 1;
      assert (s + right)[..|s| + n] == s + right[..n] && (s + right)[|s| + n] == right[n];
      TrimRightRemovesPadding(s, right[..n]);
    }
  }

  /** Trimming removes exactly the padding around trimmed text. */
  lemma TrimSpaceRemovesPadding(left: string, s: string, right: string)
    requires AllSpace(left) && AllSpace(right) && Trimmed(s)
    ensures TrimSpace(left + s + right) == s
  {
    if s == "" {
      assert left + s + right == (left + right) + "";
      TrimLeftRemovesPadding(left + right, "");
    } else {
      assert left + s + right == left + (s + right);
      TrimLeftRemovesPadding(left, s + right);
      TrimRightRemovesPadding(s, right);
    }
  }

  lemma {:induction false} TrimLeftLeavesPadding(s: string) returns (left: string)
    ensures s == left + TrimLeft(s) && AllSpace(left)
    ensures TrimLeft(s) != "" ==> !IsSpace(TrimLeft(s)[0])
  {
    if s != "" && IsSpace(s[0]) {
      var rest := TrimLeftLeavesPadding(s[1..]);
      left := [s[0]] + rest;
      assert s == [s[0]] + s[1..];
    } else {
      left := "";
    }
  }

  lemma {:induction false} TrimRightLeavesPadding(s: string) returns (right: string)
    ensures s == TrimRight(s) + right && AllSpace(right)
    ensures TrimRight(s) != "" ==> !IsSpace(TrimRight(s)[|TrimRight(s)| - 1])
  {
    if s != "" && IsSpace(s[|s| - 1]) {
      var rest := TrimRightLeavesPadding(s[..|s| - 1]);
      right := rest + [s[|s| - 1]];
      assert s == s[..|s| - 1] + [s[|s| - 1]];
    } else {
      right := "";
    }
  }

  /** Every text is padding around its trimmed form. */
  lemma TrimSpaceLeavesPadding(s: string) returns (left: string, right: string)
    ensures s == left + TrimSpace(s) + right && AllSpace(left) && AllSpace(right) && Trimmed(TrimSpace(s))
  {
    left := TrimLeftLeavesPadding(s);
    right := TrimRightLeavesPadding(TrimLeft(s));
    Enclosed(s, left, TrimLeft(s), TrimSpace(s), right);
  }

  lemma Enclosed(s: string, left: string, middle: string, inner: string, right: string)
    requires s == left + middle && middle == inner + right
    ensures s == left + inner + right && (inner != "" ==> middle[0] == inner[0])
  {
  }

  /** Go's string order; code points and UTF-8 bytes order alike. */
  predicate Less(a: string, b: string)
  {
    b != "" && (a == "" || a[0] < b[0] || (a[0] == b[0] && Less(a[1..], b[1..])))
  }

  lemma {:induction false} LessIsTotal(a: string, b: string)
    ensures Less(a, b) || a == b || Less(b, a)
    ensures !(Less(a, b) && Less(b, a)) && !Less(a, a)
  {
    if a != "" && b != "" {
      LessIsTotal(a[1..], b[1..]);
      LessIsTotal(a[1..], a[1..]);
      if a[0] == b[0] && a[1..] == b[1..] {
        assert a == [a[0]] + a[1..] == [b[0]] + b[1..] == b;
      }
    } else if a != "" {
      LessIsTotal(a[1..], a[1..]);
    }
  }

  lemma {:induction false} LessIsTransitive(a: string, b: string, c: string)
    requires Less(a, b) && Less(b, c)
    ensures Less(a, c)
  {
    if a != "" && a[0] == b[0] == c[0] {
      LessIsTransitive(a[1..], b[1..], c[1..]);
    }
  }

  predicate StrictlySorted(s: seq<string>)
  {
    forall i, j :: 0 <= i < j < |s| ==> Less(s[i], s[j])
  }

  lemma {:induction false} LeastExists(keys: set<string>) returns (least: string)
    requires keys != {}
    ensures least in keys && forall k :: k in keys && k != least ==> Less(least, k)
  {
    var first :| first in keys;
    var rest := keys - {first};
    assert forall k :: k in keys && k != first ==> k in rest;
    least := first;
    if rest != {} {
      var other := LeastExists(rest);
      LessIsTotal(first, other);
      least := if Less(other, first) then other else first;
      forall k | k in keys && k != least
        ensures Less(least, k)
      {
        if k != first && k != other && least == first { LessIsTransitive(first, other, k); }
      }
    }
  }

  /** The keys of a set in increasing order, as `sort.Strings` leaves them. */
  ghost function Sorted(keys: set<string>): (s: seq<string>)
    ensures StrictlySorted(s)
    ensures forall k :: k in s <==> k in keys
    ensures |s| == |keys|
  {
    if keys == {} then []
    else
      assert exists least :: least in keys && forall k :: k in keys && k != least ==> Less(least, k) by {
        var least := LeastExists(keys);
      }
      var least :| least in keys && forall k :: k in keys && k != least ==> Less(least, k);
      [least] + Sorted(keys - {least})
  }

  lemma BothEmpty(a: seq<string>, b: seq<string>)
    requires forall k :: k in a <==> k in b
    ensures a == [] <==> b == []
  {
    if a != [] {
      var k := a[0];
      assert k in b;
    }
    if b != [] {
      var k := b[0];
      assert k in a;
    }
  }

  /** Sorting leaves no choice: two sorted listings of the same keys are the same list. */
  lemma {:induction false} SortedIsUnique(a: seq<string>, b: seq<string>)
    requires StrictlySorted(a) && StrictlySorted(b)
    requires forall k :: k in a <==> k in b
    ensures a == b
  {
    BothEmpty(a, b);
    if a != [] {
      LessIsTotal(a[0], a[0]);
      LessIsTotal(a[0], b[0]);
      assert a[0] in b && b[0] in a;
      assert a[0] == b[0];
      forall k
        ensures k in a[1..] <==> k in b[1..]
      {
        if k in a[1..] { var i :| 1 <= i < |a| && a[i] == k; assert k in b; assert Less(a[0], k); }
        if k in b[1..] { var i :| 1 <= i < |b| && b[i] == k; assert k in a; assert Less(b[0], k); }
      }
      SortedIsUnique(a[1..], b[1..]);
      assert a == [a[0]] + a[1..] && b == [b[0]] + b[1..];
    }
  }
}
