/** The semicolon-separated list of group/version/kind patterns the operator watches. */
module GvkPatterns {
  import opened Text

  datatype Gvk = Gvk(group: string, version: string, kind: string)
  datatype Parsed = Gvks(gvks: seq<Gvk>) | NoValidGvks

  /** One entry: "version/kind" or "group/version/kind", padding aside. */
  function ParseEntry(entry: string): Option<Gvk>
  {
    var parts := Split(TrimSpace(entry), '/');
    if |parts| == 2 && parts[0] != "" && parts[1] != "" then Some(Gvk("", parts[0], parts[1]))
    else if |parts| == 3 && parts[1] != "" && parts[2] != "" then Some(Gvk(parts[0], parts[1], parts[2]))
    else None
  }

  function ParseOne(entry: string): seq<Gvk>
  {
    match ParseEntry(entry) case Some(g) => [g] case None => []
  }

  function ParseEntries(entries: seq<string>): seq<Gvk>
  {
    if entries == [] then [] else ParseOne(entries[0]) + ParseEntries(entries[1..])
  }

  function Parse(pattern: string): Parsed
  {
    var gvks := ParseEntries(Split(pattern, ';'));
    if gvks == [] then NoValidGvks else Gvks(gvks)
  }

  lemma ParseEntriesCons(entry: string, rest: seq<string>)
    ensures ParseEntries([entry] + rest) == ParseOne(entry) + ParseEntries(rest)
  {
    assert ([entry] + rest)[1..] == rest;
  }

  lemma {:induction false} ParseEntriesConcat(a: seq<string>, b: seq<string>)
    ensures ParseEntries(a + b) == ParseEntries(a) + ParseEntries(b)
  {
    if a == [] {
      assert a + b == b;
    } else {
      ParseEntriesConcat(a[1..], b);
      ParseEntriesCons(a[0], a[1..] + b);
      Regroup(a, b);
    }
  }

  lemma Regroup(a: seq<string>, b: seq<string>)
    requires a != []
    ensures a + b == [a[0]] + (a[1..] + b)
  {
  }

  lemma ParseOneMore(entries: seq<string>, k: nat)
    requires k < |entries|
    ensures ParseEntries(entries[..k + 1]) == ParseEntries(entries[..k]) + ParseOne(entries[k])
  {
    ParseEntriesConcat(entries[..k], [entries[k]]);
    ParseEntriesCons(entries[k], []);
    assert entries[..k + 1] == entries[..k] + [entries[k]] && [entries[k]] == [entries[k]] + [];
  }

  method ParseGVKs(pattern: string) returns (r: Parsed)
    ensures r == Parse(pattern)
  {
    var gvks := [];
    var entries := Split(pattern, ';');
    for k := 0 to |entries|
      invariant gvks == ParseEntries(entries[..k])
    {
      ParseOneMore(entries, k);
      var entry := TrimSpace(entries[k]);
      if entry == "" {
        continue;
      }
      var parts := Split(entry, '/');
      var group, version, kind := "", "", "";
      if |parts| == 2 {
        version := parts[0];
        kind := parts[1];
      } else if |parts| == 3 {
        group := parts[0];
        version := parts[1];
        kind := parts[2];
      }
      if version == "" || kind == "" {
        continue;
      }
      gvks := gvks + [Gvk(group, version, kind)];
    }
    assert entries[..|entries|] == entries;
    r := if |gvks| == 0 then NoValidGvks else Gvks(gvks);
  }

  /** The entries of two patterns joined by a semicolon are the entries of the first, then those of the second. */
  lemma ConcatenationParses(a: string, b: string)
    ensures ParseEntries(Split(a + ";" + b, ';')) == ParseEntries(Split(a, ';')) + ParseEntries(Split(b, ';'))
  {
    SplitAtSeparator(a, ';', b);
    ParseEntriesConcat(Split(a, ';'), Split(b, ';'));
  }

  function PrintGvk(g: Gvk): string
  {
    if g.group == "" then Join([g.version, g.kind], '/') else Join([g.group, g.version, g.kind], '/')
  }

  /** The padded text of an entry names this pattern. */
  predicate Names(entry: string, g: Gvk)
  {
    && '/' !in g.group && '/' !in g.version && '/' !in g.kind && g.version != "" && g.kind != ""
    && (TrimSpace(entry) == g.group + "/" + g.version + "/" + g.kind ||
        (g.group == "" && TrimSpace(entry) == g.version + "/" + g.kind))
  }

  /** Exactly which entries are patterns, and of what; all others are skipped. */
  lemma ParsedExactly(entry: string, g: Gvk)
    ensures ParseEntry(entry) == Some(g) <==> Names(entry, g)
    ensures ParseEntry(entry) == None <==> forall h :: !Names(entry, h)
  {
    NamedIsParsed(entry);
    ParsedIsNamed(entry);
  }

  lemma NamedIsParsed(entry: string)
    ensures forall g :: Names(entry, g) ==> ParseEntry(entry) == Some(g)
  {
    forall g | Names(entry, g)
      ensures ParseEntry(entry) == Some(g)
    {
      var two, three := [g.version, g.kind], [g.group, g.version, g.kind];
      assert two[1..] == [g.kind] && three[1..] == two;
      JoinedByHand(g);
      SplitOfJoin(two, '/');
      SplitOfJoin(three, '/');
    }
  }

  lemma JoinedByHand(g: Gvk)
    ensures Join([g.version, g.kind], '/') == g.version + "/" + g.kind
    ensures Join([g.group, g.version, g.kind], '/') == g.group + "/" + g.version + "/" + g.kind
  {
    assert [g.version, g.kind][1..] == [g.kind] && [g.group, g.version, g.kind][1..] == [g.version, g.kind];
  }

  lemma ParsedIsNamed(entry: string)
    ensures match ParseEntry(entry) case Some(g) => Names(entry, g) case None => true
  {
    var parts := Split(TrimSpace(entry), '/');
    JoinOfSplit(TrimSpace(entry), '/');
    if ParseEntry(entry).Some? {
      var g := ParseEntry(entry).value;
      JoinedByHand(g);
      if |parts| == 2 {
        assert parts == [g.version, g.kind];
      } else {
        assert parts == [g.group, g.version, g.kind];
      }
    }
  }

  predicate Clean(s: string)
  {
    '/' !in s && ';' !in s && forall i :: 0 <= i < |s| ==> !IsSpace(s[i])
  }

  predicate WellFormed(g: Gvk)
  {
    Clean(g.group) && Clean(g.version) && Clean(g.kind) && g.version != "" && g.kind != ""
  }

  /** An entry of a pattern: a padded pattern, or anything the parser skips. */
  datatype Item = Padded(left: string, gvk: Gvk, right: string) | Skipped(text: string)

  predicate ItemOk(item: Item)
  {
    match item
    case Padded(l, g, r) => AllSpace(l) && AllSpace(r) && WellFormed(g)
    case Skipped(text) => ';' !in text && ParseEntry(text) == None
  }

  function PrintItem(item: Item): string
  {
    match item
    case Padded(l, g, r) => l + PrintGvk(g) + r
    case Skipped(text) => text
  }

  function PrintItems(items: seq<Item>): seq<string>
  {
    if items == [] then [] else [PrintItem(items[0])] + PrintItems(items[1..])
  }

  function GvksOf(items: seq<Item>): seq<Gvk>
  {
    if items == [] then [] else (if items[0].Padded? then [items[0].gvk] else []) + GvksOf(items[1..])
  }

  lemma PrintedGvk(g: Gvk)
    requires WellFormed(g)
    ensures Split(PrintGvk(g), '/') == if g.group == "" then [g.version, g.kind] else [g.group, g.version, g.kind]
    ensures Trimmed(PrintGvk(g)) && ';' !in PrintGvk(g)
  {
    var tail := Join([g.version, g.kind], '/');
    assert [g.version, g.kind][1..] == [g.kind];
    assert tail == g.version + "/" + Join([g.kind], '/');
    if g.group == "" {
      SplitOfJoin([g.version, g.kind], '/');
    } else {
      assert [g.group, g.version, g.kind][1..] == [g.version, g.kind];
      assert PrintGvk(g) == g.group + "/" + tail;
      SplitOfJoin([g.group, g.version, g.kind], '/');
    }
  }

  lemma ItemParses(item: Item)
    requires ItemOk(item)
    ensures ';' !in PrintItem(item)
    ensures ParseEntry(PrintItem(item)) == if item.Padded? then Some(item.gvk) else None
  {
    if item.Padded? {
      PrintedGvk(item.gvk);
      TrimSpaceRemovesPadding(item.left, PrintGvk(item.gvk), item.right);
      NoSemicolonInSpace(item.left);
      NoSemicolonInSpace(item.right);
    }
  }

  lemma NoSemicolonInSpace(s: string)
    requires AllSpace(s)
    ensures ';' !in s
  {
  }

  lemma {:induction false} ItemsParse(items: seq<Item>)
    requires forall i :: 0 <= i < |items| ==> ItemOk(items[i])
    ensures |PrintItems(items)| == |items| && forall i :: 0 <= i < |items| ==> ';' !in PrintItems(items)[i]
    ensures ParseEntries(PrintItems(items)) == GvksOf(items)
  {
    if items != [] {
      ItemParses(items[0]);
      ItemsParse(items[1..]);
      assert PrintItems(items)[1..] == PrintItems(items[1..]);
    }
  }

  /**
   Printing a list of patterns, padded and mixed with entries the parser skips, and parsing it gives the
   list back.
   */
  lemma PatternRoundTrip(items: seq<Item>)
    requires items != [] && forall i :: 0 <= i < |items| ==> ItemOk(items[i])
    ensures Parse(Join(PrintItems(items), ';')) == if GvksOf(items) == [] then NoValidGvks else Gvks(GvksOf(items))
  {
    ItemsParse(items);
    SplitOfJoin(PrintItems(items), ';');
  }
}
