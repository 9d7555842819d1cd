/** The reviewable `bindings.caps.toml` and the reader of its `[overrides]` table
    (compiler/crates/kryos-bindgen/src/caps.rs). Reading what the writer wrote gives the
    overrides back, except for keys that the suggestion sections bring in themselves. */
module CapsToml {
  import opened Wrappers
  import opened Text

  datatype Capability = Net | Io | Process | Compute {
    function AsStr(): string {
      match this
      case Net => "net"
      case Io => "io"
      case Process => "process"
      case Compute => "compute"
    }
  }

  function ParseCapability(s: string): Option<Capability> {
    var t := Trim(s);
    if t == "net" then Some(Net)
    else if t == "io" then Some(Io)
    else if t == "process" then Some(Process)
    else if t == "compute" then Some(Compute)
    else None
  }

  lemma CapabilityRoundTrips(c: Capability)
    ensures ParseCapability(c.AsStr()) == Some(c)
  {
    TrimTrimmed(c.AsStr());
  }

  datatype Provenance = Heuristic | LowConfidence | Override {
    function Note(): string {
      match this
      case Heuristic => "heuristic, verify"
      case LowConfidence =>
        "no naming pattern" + " matched; " + "defaulted to " + "compute " + "(low confidence)" + ", verify"
      case Override => "overridden via " + "bindings.caps.toml" + " (human-confirmed)"
    }
  }

  datatype CapTag = CapTag(symbol: string, capability: Capability, provenance: Provenance)

  type Overrides = map<string, Capability>

  // ----- lines -----

  /** No `c` in the text. */
  predicate Free(s: string, c: char) {
    forall k | 0 <= k < |s| :: s[k] != c
  }

  lemma FindAfter(a: string, c: char, b: string)
    requires Free(a, c)
    ensures Find(a + [c] + b, 0, c) == |a|
  {
    assert (a + [c] + b)[|a|] == c;
    assert forall k | 0 <= k < |a| :: (a + [c] + b)[k] == a[k];
  }

  function DropCarriageReturn(line: string): string {
    if line != "" && line[|line| - 1] == '\r' then line[..|line| - 1] else line
  }

  /** The lines of a text, their `\n` or `\r\n` dropped; an end of line at the very end opens no further line. */
  function Lines(s: string): seq<string>
    decreases |s|
  {
    var nl := Find(s, 0, '\n');
    if s == "" then []
    else if nl == |s| then [s]
    else [DropCarriageReturn(s[..nl])] + Lines(s[nl + 1..])
  }

  function Unlines(ls: seq<string>): string {
    if ls == [] then "" else ls[0] + "\n" + Unlines(ls[1..])
  }

  /** Nothing of the line can be read as the end of a line. */
  predicate OneLine(line: string) {
    Free(line, '\n') && Free(line, '\r')
  }

  lemma LinesOfMore(line: string, rest: string)
    requires Free(line, '\n')
    ensures Lines(line + "\n" + rest) == [DropCarriageReturn(line)] + Lines(rest)
  {
    var s := line + "\n" + rest;
    FindAfter(line, '\n', rest);
    assert s[..|line|] == line && s[|line| + 1..] == rest;
  }

  /** A text that is empty or ends in a line feed. */
  predicate Ended(s: string) {
    s != "" ==> s[|s| - 1] == '\n'
  }

  lemma FirstLine(s: string) returns (line: string, tail: string)
    requires s != "" && Ended(s)
    ensures s == line + "\n" + tail && Free(line, '\n') && Ended(tail)
  {
    var nl := Find(s, 0, '\n');
    line, tail := s[..nl], s[nl + 1..];
  }

  lemma LineAppend(line: string, tail: string, rest: string)
    requires Free(line, '\n') && Lines(tail + rest) == Lines(tail) + Lines(rest)
    ensures Lines(line + "\n" + tail + rest) == Lines(line + "\n" + tail) + Lines(rest)
  {
    hide *;
    LinesOfMore(line, tail);
    LinesOfMore(line, tail + rest);
    assert line + "\n" + tail + rest == line + "\n" + (tail + rest);
  }

  /** Whole lines in front do not change the lines that follow. */
  lemma {:induction false} LinesAppend(s: string, rest: string)
    requires Ended(s)
    ensures Lines(s + rest) == Lines(s) + Lines(rest)
    decreases |s|
  {
    if s == "" {
      assert s + rest == rest;
    } else {
      var line, tail := FirstLine(s);
      hide *;
      LinesAppend(tail, rest);
      LineAppend(line, tail, rest);
    }
  }

  lemma {:induction false} UnlinesIsEnded(ls: seq<string>)
    ensures Ended(Unlines(ls))
  {
    if ls != [] {
      UnlinesIsEnded(ls[1..]);
    }
  }

  lemma {:induction false} LinesOfUnlines(ls: seq<string>)
    requires forall k | 0 <= k < |ls| :: OneLine(ls[k])
    ensures Lines(Unlines(ls)) == ls
  {
    if ls != [] {
      LinesOfMore(ls[0], Unlines(ls[1..]));
      LinesOfUnlines(ls[1..]);
    }
  }

  // ----- the reader -----

  /** The position of a comment that starts outside quotes, or the end. */
  function CommentStart(line: string, i: nat, inQuotes: bool): (r: nat)
    requires i <= |line|
    ensures i <= r <= |line|
    decreases |line| - i
  {
    if i == |line| then i
    else if line[i] == '"' then CommentStart(line, i + 1, !inQuotes)
    else if line[i] == '#' && !inQuotes then i
    else CommentStart(line, i + 1, inQuotes)
  }

  method StripComment(line: string) returns (r: string)
    ensures r == line[..CommentStart(line, 0, false)]
  {
    var inQuotes := false;
    for i := 0 to |line|
      invariant CommentStart(line, 0, false) == CommentStart(line, i, inQuotes)
    {
      if line[i] == '"' {
        inQuotes := !inQuotes;
      } else if line[i] == '#' && !inQuotes {
        return line[..i];
      }
    }
    return line;
  }

  /** White space and one pair of quotes. */
  function Unquote(s: string): string {
    var t := Trim(s);
    var u := if t != "" && t[0] == '"' then t[1..] else t;
    if u != "" && u[|u| - 1] == '"' then u[..|u| - 1] else u
  }

  datatype Reading = Reading(inOverrides: bool, entries: Overrides)

  /** What is left of a line when its comment and the white space are gone. */
  function Content(line: string): string {
    Trim(line[..CommentStart(line, 0, false)])
  }

  function ReadEntry(content: string, entries: Overrides): Overrides {
    var eq := Find(content, 0, '=');
    if eq == |content| then entries
    else
      var key := Unquote(content[..eq]);
      var cap := ParseCapability(Unquote(content[eq + 1..]));
      if key != "" && cap.Some? then entries[key := cap.value] else entries
  }

  function ReadLine(st: Reading, line: string): Reading {
    var content := Content(line);
    if content == "" then st
    else if content[0] == '[' then st.(inOverrides := content == "[overrides]")
    else if !st.inOverrides then st
    else st.(entries := ReadEntry(content, st.entries))
  }

  function ReadLines(st: Reading, ls: seq<string>): Reading
    decreases |ls|
  {
    if ls == [] then st else ReadLines(ReadLine(st, ls[0]), ls[1..])
  }

  const START := Reading(false, map[])

  function Parsed(toml: string): Overrides {
    ReadLines(START, Lines(toml)).entries
  }

  lemma {:induction false} ReadLinesAppend(st: Reading, a: seq<string>, b: seq<string>)
    ensures ReadLines(st, a + b) == ReadLines(ReadLines(st, a), b)
    decreases |a|
  {
    if a == [] {
      assert a + b == b;
    } else {
      assert (a + b)[0] == a[0] && (a + b)[1..] == a[1..] + b;
      ReadLinesAppend(ReadLine(st, a[0]), a[1..], b);
    }
  }

  lemma ReadOne(st: Reading, line: string)
    ensures ReadLines(st, [line]) == ReadLine(st, line)
  {
    hide ReadLine;
    assert [line][1..] == [];
  }

  lemma ReadLineMore(st: Reading, ls: seq<string>, k: nat)
    requires k < |ls|
    ensures ReadLines(st, ls[..k + 1]) == ReadLine(ReadLines(st, ls[..k]), ls[k])
  {
    hide ReadLine;
    assert ls[..k + 1] == ls[..k] + [ls[k]];
    ReadLinesAppend(st, ls[..k], [ls[k]]);
    ReadOne(ReadLines(st, ls[..k]), ls[k]);
  }

  method ParseOverrides(toml: string) returns (entries: Overrides)
    ensures entries == Parsed(toml)
  {
    hide Lines, Trim, CommentStart, ReadEntry;
    entries := map[];
    var inOverrides := false;
    var ls := Lines(toml);
    for k := 0 to |ls|
      invariant Reading(inOverrides, entries) == ReadLines(START, ls[..k])
    {
      ReadLineMore(START, ls, k);
      var stripped := StripComment(ls[k]);
      var line := Trim(stripped);
      if line == "" {
        continue;
      }
      if line[0] == '[' {
        inOverrides := line == "[overrides]";
        continue;
      }
      if !inOverrides {
        continue;
      }
      entries := PutEntry(line, entries);
    }
    assert ls[..|ls|] == ls;
  }

  /** Entries with an unknown capability, or no key, are skipped. */
  method PutEntry(line: string, entries: Overrides) returns (r: Overrides)
    ensures r == ReadEntry(line, entries)
  {
    r := entries;
    var eq := Find(line, 0, '=');
    if eq < |line| {
      var key := Unquote(line[..eq]);
      var val := Unquote(line[eq + 1..]);
      if key != "" {
        var cap := ParseCapability(val);
        if cap.Some? {
          r := r[key := cap.value];
        }
      }
    }
  }

  // ----- the writer -----

  function HeadLine(tag: CapTag): string {
    "[suggestions." + tag.symbol + "]"
  }

  function CapabilityLine(tag: CapTag): string {
    "capability = \"" + tag.capability.AsStr() + "\""
  }

  function ConfidenceLine(tag: CapTag): string {
    "confidence = \"" + tag.provenance.Note() + "\""
  }

  function TagText(tag: CapTag): string {
    "\n" + (HeadLine(tag) + "\n") + (CapabilityLine(tag) + "\n") + (ConfidenceLine(tag) + "\n")
  }

  function TagsText(tags: seq<CapTag>): string {
    if tags == [] then "" else TagsText(tags[..|tags| - 1]) + TagText(tags[|tags| - 1])
  }

  function EntryLine(key: string, cap: Capability): string {
    key + " = \"" + cap.AsStr() + "\""
  }

  /** `order` lists the keys of the map, as its iteration does. */
  predicate Lists(order: seq<string>, o: Overrides) {
    (forall k | k in order :: k in o) && (forall k | k in o :: k in order)
  }

  function EntryLines(order: seq<string>, o: Overrides): seq<string>
    requires forall k | k in order :: k in o
  {
    if order == [] then []
    else EntryLines(order[..|order| - 1], o) + [EntryLine(order[|order| - 1], o[order[|order| - 1]])]
  }

  /** The two fixed headers are comments; nothing below depends on what they say. */
  predicate IsCommentBlock(ls: seq<string>) {
    forall k | 0 <= k < |ls| :: OneLine(ls[k]) && ls[k] != "" && ls[k][0] == '#'
  }

  /** The comment header and the suggestion tables. */
  function SuggestionPart(header: seq<string>, tags: seq<CapTag>): string {
    Unlines(header) + TagsText(tags)
  }

  function BannerText(banner: seq<string>): string {
    "\n" + Unlines(banner) + "[overrides]\n"
  }

  function TomlText(header: seq<string>, tags: seq<CapTag>, banner: seq<string>, order: seq<string>,
                    o: Overrides): string
    requires forall k | k in order :: k in o
  {
    SuggestionPart(header, tags) + (BannerText(banner) + Unlines(EntryLines(order, o)))
  }

  lemma {:induction false} UnlinesAppend(a: seq<string>, b: seq<string>)
    ensures Unlines(a + b) == Unlines(a) + Unlines(b)
    decreases |a|
  {
    if a == [] {
      assert a + b == b;
    } else {
      assert (a + b)[0] == a[0] && (a + b)[1..] == a[1..] + b;
      UnlinesAppend(a[1..], b);
    }
  }

  method GenerateCapsToml(header: seq<string>, tags: seq<CapTag>, banner: seq<string>, order: seq<string>,
                          o: Overrides) returns (out: string)
    requires Lists(order, o)
    ensures out == TomlText(header, tags, banner, order, o)
  {
    hide TagText, Unlines, BannerText;
    out := Unlines(header);
    assert Unlines(header) + "" == Unlines(header);
    for k := 0 to |tags|
      invariant out == SuggestionPart(header, tags[..k])
    {
      out := PushTag(out, tags[k]);
      assert tags[..k + 1][..k] == tags[..k];
      assert SuggestionPart(header, tags[..k + 1]) == SuggestionPart(header, tags[..k]) + TagText(tags[k]);
    }
    assert tags[..|tags|] == tags;
    var entries := PushEntries(BannerText(banner), order, o);
    out := out + entries;
  }

  method PushTag(out: string, tag: CapTag) returns (r: string)
    ensures r == out + TagText(tag)
  {
    hide HeadLine, CapabilityLine, ConfidenceLine;
    r := out + "\n";
    r := r + (HeadLine(tag) + "\n");
    r := r + (CapabilityLine(tag) + "\n");
    r := r + (ConfidenceLine(tag) + "\n");
  }

  method PushEntries(out: string, order: seq<string>, o: Overrides) returns (r: string)
    requires Lists(order, o)
    ensures r == out + Unlines(EntryLines(order, o))
  {
    hide EntryLine;
    r := out;
    for k := 0 to |order|
      invariant r == out + Unlines(EntryLines(order[..k], o))
    {
      var line := EntryLine(order[k], o[order[k]]);
      r := r + (line + "\n");
      assert order[..k + 1][..k] == order[..k];
      UnlinesAppend(EntryLines(order[..k], o), [line]);
      assert Unlines([line]) == line + "\n" + "";
    }
    assert order[..|order|] == order;
  }

  // ----- what single lines do to the reader -----

  lemma {:induction false} TrimEndReaches(t: string, k: nat)
    requires k < |t| && !IsWhitespace(t[k])
    ensures k < |TrimEnd(t)|
    decreases |t|
  {
    if IsWhitespace(t[|t| - 1]) {
      TrimEndReaches(t[..|t| - 1], k);
    }
  }

  /** A line keeps what it starts with, up to the first comment or quote. */
  lemma {:induction false} CommentIsBehind(line: string, i: nat, k: nat)
    requires i <= k <= |line| && forall j | i <= j < k :: line[j] != '"' && line[j] != '#'
    ensures k <= CommentStart(line, i, false)
    decreases k - i
  {
    if i < k {
      CommentIsBehind(line, i + 1, k);
    }
  }

  lemma ContentKeepsPrefix(line: string, prefix: string)
    requires prefix <= line && prefix != "" && Free(prefix, '"') && Free(prefix, '#')
    requires forall k | 0 <= k < |prefix| :: !IsWhitespace(prefix[k])
    ensures prefix <= Content(line)
  {
    CommentIsBehind(line, 0, |prefix|);
    var t := line[..CommentStart(line, 0, false)];
    assert t[0] == prefix[0] && t[|prefix| - 1] == prefix[|prefix| - 1];
    TrimEndReaches(t, |prefix| - 1);
    assert TrimStart(t) == t;
    assert TrimEnd(t)[..|prefix|] == t[..|prefix|] == prefix;
  }

  lemma CommentReadsNothing(st: Reading, line: string)
    requires line == "" || line[0] == '#'
    ensures ReadLine(st, line) == st
  {
    assert line[..CommentStart(line, 0, false)] == "";
  }

  lemma {:induction false} CommentsReadNothing(st: Reading, ls: seq<string>)
    requires IsCommentBlock(ls)
    ensures ReadLines(st, ls) == st
  {
    if ls != [] {
      CommentReadsNothing(st, ls[0]);
      CommentsReadNothing(st, ls[1..]);
    }
  }

  /** Any table header but the one closes the table. */
  lemma TableReads(st: Reading, line: string)
    requires "[s" <= line || line == "[overrides]"
    ensures ReadLine(st, line) == st.(inOverrides := line == "[overrides]")
  {
    if "[s" <= line {
      ContentKeepsPrefix(line, "[s");
      assert Content(line)[1] == 's';
      assert "[overrides]"[1] == 'o';
    } else {
      ContentKeepsPrefix(line, "[overrides]");
    }
  }

  lemma KeyOutsideReadsNothing(st: Reading, line: string)
    requires !st.inOverrides && line != "" && line[0] == 'c'
    ensures ReadLine(st, line) == st
  {
    assert "c" <= line;
    ContentKeepsPrefix(line, "c");
    assert Content(line)[0] == 'c';
  }

  // ----- the entries -----

  /** A key that needs no quoting: every C identifier is one. */
  predicate PlainKey(k: string) {
    && k != "" && Trimmed(k) && k[0] != '[' && OneLine(k)
    && Free(k, '#') && Free(k, '"') && Free(k, '=')
  }

  lemma {:induction false} QuotedHasNoComment(line: string, i: nat, inQuotes: bool)
    requires i <= |line| && forall j | i <= j < |line| :: line[j] != '#'
    ensures CommentStart(line, i, inQuotes) == |line|
    decreases |line| - i
  {
    if i < |line| {
      QuotedHasNoComment(line, i + 1, if line[i] == '"' then !inQuotes else inQuotes);
    }
  }

  lemma UnquoteKey(k: string)
    requires PlainKey(k)
    ensures Unquote(k + " ") == k
  {
    assert "" + k + " " == k + " ";
    TrimPadded("", k, " ");
  }

  lemma UnquoteText(v: string)
    ensures Unquote(" \"" + v + "\"") == v
  {
    var core := "\"" + v + "\"";
    assert " " + core + "" == " \"" + v + "\"";
    TrimPadded(" ", core, "");
    assert core[1..] == v + "\"" && (v + "\"")[..|v|] == v;
    hide Trim;
  }

  lemma UnquoteValue(cap: Capability)
    ensures ParseCapability(Unquote(" \"" + cap.AsStr() + "\"")) == Some(cap)
  {
    hide Unquote, ParseCapability;
    UnquoteText(cap.AsStr());
    CapabilityRoundTrips(cap);
  }

  lemma EntryContent(k: string, cap: Capability)
    requires PlainKey(k)
    ensures var line := EntryLine(k, cap); line != "" && line[0] == k[0] && Content(line) == line
  {
    var line := EntryLine(k, cap);
    QuotedHasNoComment(line, 0, false);
    assert line[..|line|] == line;
    TrimTrimmed(line);
  }

  lemma EntryParts(k: string, cap: Capability, entries: Overrides)
    requires PlainKey(k)
    ensures ReadEntry(EntryLine(k, cap), entries) == entries[k := cap]
  {
    hide Trim, Unquote, ParseCapability;
    var line := EntryLine(k, cap);
    var v := " \"" + cap.AsStr() + "\"";
    assert line == (k + " ") + ['='] + v;
    FindAfter(k + " ", '=', v);
    assert line[..|k| + 1] == k + " " && line[|k| + 2..] == v;
    UnquoteKey(k);
    UnquoteValue(cap);
  }

  lemma EntryIsRead(st: Reading, k: string, cap: Capability)
    requires st.inOverrides && PlainKey(k)
    ensures ReadLine(st, EntryLine(k, cap)) == st.(entries := st.entries[k := cap])
  {
    hide Content, ReadEntry, EntryLine;
    EntryContent(k, cap);
    EntryParts(k, cap, st.entries);
  }

  predicate PlainKeys(order: seq<string>) {
    forall i | 0 <= i < |order| :: PlainKey(order[i])
  }

  /** The entries listed by `order`. */
  function Listed(order: seq<string>, o: Overrides): Overrides
    requires forall k | k in order :: k in o
  {
    map k | k in order :: o[k]
  }

  lemma {:induction false} EntriesAreRead(st: Reading, order: seq<string>, o: Overrides)
    requires st.inOverrides && PlainKeys(order) && forall k | k in order :: k in o
    ensures ReadLines(st, EntryLines(order, o)) == st.(entries := st.entries + Listed(order, o))
    decreases |order|
  {
    hide ReadLine, EntryLine, PlainKey;
    if order == [] {
      assert st.entries + map[] == st.entries;
    } else {
      var init, k := order[..|order| - 1], order[|order| - 1];
      EntriesAreRead(st, init, o);
      ReadLinesAppend(st, EntryLines(init, o), [EntryLine(k, o[k])]);
      var before := st.(entries := st.entries + Listed(init, o));
      EntryIsRead(before, k, o[k]);
      assert ReadLines(before, [EntryLine(k, o[k])]) == ReadLine(before, EntryLine(k, o[k]));
      ListedGrows(order, o, st.entries);
    }
  }

  lemma ListedGrows(order: seq<string>, o: Overrides, entries: Overrides)
    requires order != [] && forall k | k in order :: k in o
    ensures var init, k := order[..|order| - 1], order[|order| - 1];
            (entries + Listed(init, o))[k := o[k]] == entries + Listed(order, o)
  {
    assert order == order[..|order| - 1] + [order[|order| - 1]];
  }

  // ----- the round trip -----

  lemma {:induction false} TagsEnd(header: seq<string>, tags: seq<CapTag>)
    ensures Ended(SuggestionPart(header, tags))
  {
    UnlinesIsEnded(header);
    if tags != [] {
      assert TagText(tags[|tags| - 1])[|TagText(tags[|tags| - 1])| - 1] == '\n';
    }
  }

  lemma {:induction false} EntryLinesAreLines(order: seq<string>, o: Overrides)
    requires PlainKeys(order) && forall k | k in order :: k in o
    ensures forall i | 0 <= i < |EntryLines(order, o)| :: OneLine(EntryLines(order, o)[i])
  {
    hide EntryLine, OneLine, PlainKey;
    if order != [] {
      EntryLinesAreLines(order[..|order| - 1], o);
      EntryIsLine(order[|order| - 1], o[order[|order| - 1]]);
    }
  }

  lemma EntryIsLine(k: string, cap: Capability)
    requires PlainKey(k)
    ensures OneLine(EntryLine(k, cap))
  {
    assert OneLine(" = \"") && OneLine(cap.AsStr()) && OneLine("\"");
    hide PlainKey;
  }

  lemma BannerOpens(st: Reading, banner: seq<string>)
    requires IsCommentBlock(banner)
    ensures ReadLines(st, [""] + banner + ["[overrides]"]) == st.(inOverrides := true)
  {
    hide *;
    ReadLinesAppend(st, [""] + banner, ["[overrides]"]);
    ReadLinesAppend(st, [""], banner);
    ReadOne(st, "");
    CommentReadsNothing(st, "");
    CommentsReadNothing(st, banner);
    ReadOne(st, "[overrides]");
    TableReads(st, "[overrides]");
  }

  /** What follows the suggestions: the banner opens the table, the entries fill it. */
  lemma OverridesAreRead(st: Reading, banner: seq<string>, order: seq<string>, o: Overrides)
    requires IsCommentBlock(banner) && Lists(order, o) && PlainKeys(order)
    ensures ReadLines(st, Lines(BannerText(banner) + Unlines(EntryLines(order, o)))).entries == st.entries + o
  {
    var top := [""] + banner + ["[overrides]"];
    var inTable := st.(inOverrides := true);
    assert Listed(order, o) == o;
    hide *;
    BannerLines(banner, order, o);
    ReadLinesAppend(st, top, EntryLines(order, o));
    BannerOpens(st, banner);
    EntriesAreRead(inTable, order, o);
  }

  lemma BannerLines(banner: seq<string>, order: seq<string>, o: Overrides)
    requires IsCommentBlock(banner) && PlainKeys(order) && forall k | k in order :: k in o
    ensures Lines(BannerText(banner) + Unlines(EntryLines(order, o))) == [""] + banner + ["[overrides]"]
            + EntryLines(order, o)
  {
    var top := [""] + banner + ["[overrides]"];
    var entries := EntryLines(order, o);
    UnlinesAppend([""] + banner, ["[overrides]"]);
    UnlinesAppend([""], banner);
    UnlinesAppend(top, entries);
    assert Unlines(["[overrides]"]) == "[overrides]" + "\n" + "";
    assert Unlines([""]) == "" + "\n" + "";
    assert BannerText(banner) == Unlines(top);
    EntryLinesAreLines(order, o);
    LinesOfUnlines(top + entries);
  }

  /** Whatever the tags are, the overrides win over everything else the file brings in. */
  lemma OverridesWin(header: seq<string>, tags: seq<CapTag>, banner: seq<string>, order: seq<string>, o: Overrides)
    requires IsCommentBlock(banner) && Lists(order, o) && PlainKeys(order)
    ensures Parsed(TomlText(header, tags, banner, order, o)) == Parsed(SuggestionPart(header, tags)) + o
  {
    var part := SuggestionPart(header, tags);
    var rest := BannerText(banner) + Unlines(EntryLines(order, o));
    TagsEnd(header, tags);
    LinesAppend(part, rest);
    ReadLinesAppend(START, Lines(part), Lines(rest));
    OverridesAreRead(ReadLines(START, Lines(part)), banner, order, o);
  }

  // ----- the text of one tag -----

  /** A note holds no line break and no comment, and is longer than any capability. */
  predicate IsNote(s: string) {
    OneLine(s) && Free(s, '#') && |s| > 7 && Trimmed(s)
  }

  lemma JoinedIsNote(a: string, b: string)
    requires OneLine(a) && Free(a, '#') && OneLine(b) && Free(b, '#')
    requires |a| > 7 && b != "" && !IsWhitespace(a[0]) && !IsWhitespace(b[|b| - 1])
    ensures IsNote(a + b)
  {
    hide IsWhitespace;
    assert (a + b)[|a + b| - 1] == b[|b| - 1];
  }

  lemma LowConfidenceIsNote()
    ensures IsNote(LowConfidence.Note())
  {
    var a, b, c := "no naming pattern" + " matched; ", "defaulted to " + "compute ", "(low confidence)" + ", verify";
    assert OneLine("no naming pattern") && Free("no naming pattern", '#');
    assert OneLine(" matched; ") && Free(" matched; ", '#');
    assert OneLine("defaulted to ") && Free("defaulted to ", '#');
    assert OneLine("compute ") && Free("compute ", '#');
    assert OneLine("(low confidence)") && Free("(low confidence)", '#');
    assert OneLine(", verify") && Free(", verify", '#');
    assert a[0] == 'n' && c[|c| - 1] == 'y';
    var d := b + c;
    assert d[|d| - 1] == 'y';
    JoinedIsNote(a, d);
    hide IsNote;
    assert LowConfidence.Note() == a + b + c == a + d;
  }

  lemma OverrideIsNote()
    ensures IsNote(Override.Note())
  {
    var a, b := "overridden via ", "bindings.caps.toml" + " (human-confirmed)";
    assert OneLine("bindings.caps.toml") && Free("bindings.caps.toml", '#');
    assert OneLine(" (human-confirmed)") && Free(" (human-confirmed)", '#');
    assert OneLine(a) && Free(a, '#') && a[0] == 'o';
    assert b[|b| - 1] == ')';
    JoinedIsNote(a, b);
    hide IsNote;
    assert Override.Note() == a + "bindings.caps.toml" + " (human-confirmed)" == a + b;
  }

  lemma NotesAreNotes(p: Provenance)
    ensures IsNote(p.Note())
  {
    match p
    case Heuristic =>
      assert OneLine("heuristic, verify") && Free("heuristic, verify", '#');
      assert "heuristic, verify"[0] == 'h' && "heuristic, verify"[16] == 'y';
    case LowConfidence => LowConfidenceIsNote();
    case Override => OverrideIsNote();
  }

  lemma UnlinesOfOne(a: string)
    ensures Unlines([a]) == a + "\n"
  {
  }

  lemma KeyLinesAreLines(tag: CapTag)
    ensures OneLine(CapabilityLine(tag)) && OneLine(ConfidenceLine(tag))
  {
    NotesAreNotes(tag.provenance);
    hide Provenance.Note;
  }

  lemma SuggestionGrows(header: seq<string>, tags: seq<CapTag>)
    requires tags != []
    ensures SuggestionPart(header, tags) == SuggestionPart(header, tags[..|tags| - 1]) + TagText(tags[|tags| - 1])
  {
    hide Unlines, TagText;
  }

  // ----- what a symbol brings in -----

  /** The lines of a tag's table header; the symbol may spread it over several. */
  function HeadText(symbol: string): string {
    "[suggestions." + symbol + "]" + "\n"
  }

  function HeadLines(symbol: string): seq<string> {
    Lines(HeadText(symbol))
  }

  predicate IsHeader(line: string) {
    Content(line) != "" && Content(line)[0] == '['
  }

  /** An overrides table is opened before line `n` and no header closes it. */
  predicate OpenAt(ls: seq<string>, n: nat)
    requires n <= |ls|
  {
    exists j | 0 <= j < n :: Content(ls[j]) == "[overrides]" && forall k | j < k < n :: !IsHeader(ls[k])
  }

  /** The line, met in an open table, is an entry for `key`. */
  predicate EntryFor(line: string, key: string) {
    var content := Content(line);
    var eq := Find(content, 0, '=');
    && content != "" && content[0] != '[' && eq < |content|
    && key != "" && key == Unquote(content[..eq])
    && ParseCapability(Unquote(content[eq + 1..])).Some?
  }

  /** The symbol's own lines open an overrides table and put `key` into it; a table still open
      behind them takes the tag's `capability` line. */
  predicate Brings(symbol: string, key: string) {
    var ls := HeadLines(symbol);
    || (exists i | 0 <= i < |ls| :: OpenAt(ls, i) && EntryFor(ls[i], key))
    || (OpenAt(ls, |ls|) && key == "capability")
  }

  lemma {:induction false} OpenAfter(st: Reading, ls: seq<string>, n: nat)
    requires !st.inOverrides && n <= |ls|
    ensures ReadLines(st, ls[..n]).inOverrides <==> OpenAt(ls, n)
    decreases n
  {
    hide Content, ReadEntry;
    if n == 0 {
      assert ls[..0] == [];
    } else {
      OpenAfter(st, ls, n - 1);
      ReadLineMore(st, ls, n - 1);
      OpenMore(ls, n - 1);
    }
  }

  lemma OpenMore(ls: seq<string>, n: nat)
    requires n < |ls|
    ensures OpenAt(ls, n + 1) <==> Content(ls[n]) == "[overrides]" || (!IsHeader(ls[n]) && OpenAt(ls, n))
  {
    hide Content;
    if OpenAt(ls, n + 1) {
      var j :| 0 <= j < n + 1 && Content(ls[j]) == "[overrides]" && forall k | j < k < n + 1 :: !IsHeader(ls[k]);
    }
  }

  lemma ReadLineKeys(st: Reading, line: string, key: string)
    ensures key in ReadLine(st, line).entries <==> key in st.entries || (st.inOverrides && EntryFor(line, key))
  {
    hide Content, ParseCapability, Unquote;
  }

  lemma {:induction false} KeysAfter(st: Reading, ls: seq<string>, n: nat, key: string)
    requires !st.inOverrides && n <= |ls|
    ensures key in ReadLines(st, ls[..n]).entries
       <==> key in st.entries || exists i | 0 <= i < n :: OpenAt(ls, i) && EntryFor(ls[i], key)
    decreases n
  {
    hide ReadLine, OpenAt, EntryFor;
    if n == 0 {
      assert ls[..0] == [];
    } else {
      KeysAfter(st, ls, n - 1, key);
      ReadLineMore(st, ls, n - 1);
      OpenAfter(st, ls, n - 1);
      ReadLineKeys(ReadLines(st, ls[..n - 1]), ls[n - 1], key);
    }
  }

  lemma HeadStarts(symbol: string)
    ensures HeadLines(symbol) != [] && "[s" <= HeadLines(symbol)[0]
  {
    var text := "[suggestions." + symbol + "]" + "\n";
    assert text[..2] == "[s" && text[2] == 'u';
    assert text[|text| - 1] == '\n';
    var nl := Find(text, 0, '\n');
    assert text[nl] == '\n' && nl >= 3;
    var line := DropCarriageReturn(text[..nl]);
    assert line[..2] == "[s";
  }

  /** A table header closes whatever table was open before the tag. */
  lemma HeadCloses(st: Reading, symbol: string)
    ensures ReadLines(st, HeadLines(symbol)) == ReadLines(st.(inOverrides := false), HeadLines(symbol))
  {
    hide HeadLines, ReadLine;
    HeadStarts(symbol);
    TableReads(st, HeadLines(symbol)[0]);
    TableReads(st.(inOverrides := false), HeadLines(symbol)[0]);
  }

  lemma LongIsNoCapability(v: string)
    requires IsNote(v)
    ensures ParseCapability(v).None?
  {
    TrimTrimmed(v);
  }

  /** The line of a note has no comment and no white space around it. */
  lemma NoteContent(v: string)
    requires IsNote(v)
    ensures var line := "confidence = \"" + v + "\""; Content(line) == line
  {
    var key, value := "confidence ", " \"" + v + "\"";
    var line := "confidence = \"" + v + "\"";
    assert Free(key, '#') && Free(" \"", '#');
    assert line == key + ['='] + value;
    assert Free(value, '#') && line[0] == 'c' && line[|line| - 1] == '"';
    hide Trim, CommentStart, IsNote;
    QuotedHasNoComment(line, 0, false);
    assert line[..|line|] == line;
    TrimTrimmed(line);
  }

  lemma NoteParts(v: string)
    requires IsNote(v)
    ensures var line := "confidence = \"" + v + "\""; var eq := Find(line, 0, '=');
            eq < |line| && Unquote(line[..eq]) == "confidence" && Unquote(line[eq + 1..]) == v
  {
    hide Trim, Unquote, IsNote;
    var key, value := "confidence ", " \"" + v + "\"";
    var line := "confidence = \"" + v + "\"";
    assert Free(key, '=') && line == key + ['='] + value;
    FindAfter(key, '=', value);
    assert line[..|key|] == "confidence" + " " && line[|key| + 1..] == value;
    UnquoteKey("confidence");
    UnquoteText(v);
  }

  lemma LongReadsNothing(st: Reading, v: string)
    requires IsNote(v)
    ensures ReadLine(st, "confidence = \"" + v + "\"") == st
  {
    hide Unquote, ParseCapability, Content, IsNote;
    NoteContent(v);
    NoteParts(v);
    LongIsNoCapability(v);
  }

  lemma ConfidenceReadsNothing(st: Reading, tag: CapTag)
    ensures ReadLine(st, ConfidenceLine(tag)) == st
  {
    NotesAreNotes(tag.provenance);
    LongReadsNothing(st, tag.provenance.Note());
    hide Provenance.Note, ReadLine, IsNote;
  }

  lemma CapabilityLineRead(st: Reading, tag: CapTag)
    ensures ReadLine(st, CapabilityLine(tag))
         == if st.inOverrides then st.(entries := st.entries["capability" := tag.capability]) else st
  {
    hide ReadLine;
    if st.inOverrides {
      assert CapabilityLine(tag) == EntryLine("capability", tag.capability);
      EntryIsRead(st, "capability", tag.capability);
    } else {
      KeyOutsideReadsNothing(st, CapabilityLine(tag));
    }
  }

  lemma KeyLinesRead(st: Reading, tag: CapTag)
    ensures ReadLines(st, [CapabilityLine(tag), ConfidenceLine(tag)])
         == if st.inOverrides then st.(entries := st.entries["capability" := tag.capability]) else st
  {
    var keys := [CapabilityLine(tag), ConfidenceLine(tag)];
    var st' := ReadLine(st, CapabilityLine(tag));
    hide ReadLine, CapabilityLine, ConfidenceLine;
    CapabilityLineRead(st, tag);
    ConfidenceReadsNothing(st', tag);
    assert keys[1..] == [ConfidenceLine(tag)];
    ReadOne(st', ConfidenceLine(tag));
  }

  lemma TagTextLines(tag: CapTag)
    ensures Lines(TagText(tag)) == [""] + HeadLines(tag.symbol) + [CapabilityLine(tag), ConfidenceLine(tag)]
  {
    var head, keys := HeadText(tag.symbol), [CapabilityLine(tag), ConfidenceLine(tag)];
    assert Ended(head) && Free("", '\n');
    assert Lines(head) == HeadLines(tag.symbol) && DropCarriageReturn("") == "";
    KeyLinesAreLines(tag);
    assert OneLine(keys[0]) && OneLine(keys[1]);
    TagTextIsJoined(tag);
    hide *;
    LinesOfUnlines(keys);
    LinesAppend(head, Unlines(keys));
    LinesOfMore("", head + Unlines(keys));
  }

  lemma TagTextIsJoined(tag: CapTag)
    ensures TagText(tag) == "" + "\n" + (HeadText(tag.symbol) + Unlines([CapabilityLine(tag), ConfidenceLine(tag)]))
  {
    assert HeadLine(tag) + "\n" == HeadText(tag.symbol);
    hide HeadLine, HeadText, CapabilityLine, ConfidenceLine, Unlines;
    UnlinesOfTwo(CapabilityLine(tag), ConfidenceLine(tag));
  }

  lemma UnlinesOfTwo(a: string, b: string)
    ensures Unlines([a, b]) == (a + "\n") + (b + "\n")
  {
    assert [a, b][1..] == [b];
    UnlinesOfOne(b);
  }

  /** What a line of a table states: a key and its text. */
  function Stated(line: string): (string, string) {
    var content := Content(line);
    var eq := Find(content, 0, '=');
    if eq == |content| then ("", "") else (Unquote(content[..eq]), Unquote(content[eq + 1..]))
  }

  lemma CapabilityIsStated(tag: CapTag)
    ensures Stated(CapabilityLine(tag)) == ("capability", tag.capability.AsStr())
    ensures ParseCapability(tag.capability.AsStr()) == Some(tag.capability)
  {
    hide Trim, Unquote, ParseCapability, Content;
    var line := CapabilityLine(tag);
    var v := " \"" + tag.capability.AsStr() + "\"";
    assert line == EntryLine("capability", tag.capability) && PlainKey("capability");
    EntryContent("capability", tag.capability);
    assert line == "capability " + ['='] + v;
    FindAfter("capability ", '=', v);
    assert line[..11] == "capability" + " " && line[12..] == v;
    UnquoteKey("capability");
    UnquoteText(tag.capability.AsStr());
    CapabilityRoundTrips(tag.capability);
  }

  lemma ConfidenceIsStated(tag: CapTag)
    ensures Stated(ConfidenceLine(tag)) == ("confidence", tag.provenance.Note())
  {
    NotesAreNotes(tag.provenance);
    hide Provenance.Note;
    NoteIsStated(tag.provenance.Note());
  }

  lemma NoteIsStated(v: string)
    requires IsNote(v)
    ensures Stated("confidence = \"" + v + "\"") == ("confidence", v)
  {
    hide Unquote, Content, IsNote;
    NoteContent(v);
    NoteParts(v);
  }

  /** A table ends in two lines that state the capability of its tag and how it was found. */
  lemma TableStatesItsTag(tag: CapTag)
    ensures var ls := Lines(TagText(tag));
            && |ls| >= 3 && ParseCapability(Stated(ls[|ls| - 2]).1) == Some(tag.capability)
            && Stated(ls[|ls| - 2]) == ("capability", tag.capability.AsStr())
            && Stated(ls[|ls| - 1]) == ("confidence", tag.provenance.Note())
  {
    hide Stated, CapabilityLine, ConfidenceLine, HeadLines, Lines, TagText, Provenance.Note, ParseCapability;
    TagTextLines(tag);
    CapabilityIsStated(tag);
    ConfidenceIsStated(tag);
  }

  /** One tag adds exactly the keys its symbol brings. */
  lemma TagKeys(st: Reading, tag: CapTag, key: string)
    ensures key in ReadLines(st, Lines(TagText(tag))).entries <==> key in st.entries || Brings(tag.symbol, key)
  {
    var ls, keys := HeadLines(tag.symbol), [CapabilityLine(tag), ConfidenceLine(tag)];
    var closed := st.(inOverrides := false);
    hide ReadLine, OpenAt, EntryFor, HeadLines, Lines, TagText, CapabilityLine, ConfidenceLine;
    TagTextLines(tag);
    ReadLinesAppend(st, [""] + ls, keys);
    ReadLinesAppend(st, [""], ls);
    ReadOne(st, "");
    CommentReadsNothing(st, "");
    HeadCloses(st, tag.symbol);
    assert ls[..|ls|] == ls;
    OpenAfter(closed, ls, |ls|);
    KeysAfter(closed, ls, |ls|, key);
    KeyLinesRead(ReadLines(closed, ls), tag);
  }

  lemma HeaderReadsNothing(header: seq<string>)
    requires IsCommentBlock(header)
    ensures Parsed(Unlines(header)) == map[]
  {
    hide Lines, ReadLines, Unlines;
    LinesOfUnlines(header);
    CommentsReadNothing(START, header);
  }

  lemma {:induction false} SuggestionKeys(header: seq<string>, tags: seq<CapTag>, key: string)
    requires IsCommentBlock(header)
    ensures key in Parsed(SuggestionPart(header, tags)) <==> exists i | 0 <= i < |tags| :: Brings(tags[i].symbol, key)
    decreases |tags|
  {
    hide Brings, Lines, ReadLines, TagText;
    if tags == [] {
      assert SuggestionPart(header, []) == Unlines(header);
      HeaderReadsNothing(header);
    } else {
      hide SuggestionPart;
      var init, tag := tags[..|tags| - 1], tags[|tags| - 1];
      SuggestionKeys(header, init, key);
      SuggestionGrows(header, tags);
      TagsEnd(header, init);
      LinesAppend(SuggestionPart(header, init), TagText(tag));
      ReadLinesAppend(START, Lines(SuggestionPart(header, init)), Lines(TagText(tag)));
      TagKeys(ReadLines(START, Lines(SuggestionPart(header, init))), tag, key);
    }
  }

  lemma OverridesAll(s: Overrides, o: Overrides)
    ensures s + o == o <==> forall key | key in s :: key in o
  {
    if s + o == o {
      forall key | key in s
        ensures key in o
      {
        assert key in s + o;
      }
    }
  }

  /** The round trip holds exactly when every key that some tag's symbol brings in is overridden. */
  lemma RoundTripExactly(header: seq<string>, tags: seq<CapTag>, banner: seq<string>, order: seq<string>, o: Overrides)
    requires IsCommentBlock(header) && IsCommentBlock(banner) && Lists(order, o) && PlainKeys(order)
    ensures Parsed(TomlText(header, tags, banner, order, o)) == o
       <==> forall i, key | 0 <= i < |tags| && Brings(tags[i].symbol, key) :: key in o
  {
    OverridesWin(header, tags, banner, order, o);
    var s := Parsed(SuggestionPart(header, tags));
    hide Brings, Parsed, TomlText, SuggestionPart;
    forall key
      ensures key in s <==> exists i | 0 <= i < |tags| :: Brings(tags[i].symbol, key)
    {
      SuggestionKeys(header, tags, key);
    }
    OverridesAll(s, o);
  }

  // ----- symbols that are single lines -----

  lemma SingleHeadLine(symbol: string)
    requires Free(symbol, '\n')
    ensures HeadLines(symbol) == ["[suggestions." + symbol + "]"]
  {
    var line := "[suggestions." + symbol + "]";
    assert line + "\n" + "" == line + "\n";
    assert Free("[suggestions.", '\n') && Free("]", '\n');
    LinesOfMore(line, "");
  }

  /** A symbol without a line feed brings in nothing; a carriage return does no harm, because the
      header ends in a bracket. */
  lemma SingleLineBringsNothing(symbol: string, key: string)
    requires Free(symbol, '\n')
    ensures !Brings(symbol, key)
  {
    SingleHeadLine(symbol);
    var line := "[suggestions." + symbol + "]";
    assert "[s" <= line;
    ContentKeepsPrefix(line, "[s");
    assert Content(line)[1] == 's' && "[overrides]"[1] == 'o';
  }

  /** For all tags whose symbols hold no line feed (those of a parsed header are identifiers)
      and every override map, in whatever order its keys are listed. */
  lemma OverridesRoundTrip(header: seq<string>, tags: seq<CapTag>, banner: seq<string>, order: seq<string>,
                           o: Overrides)
    requires IsCommentBlock(header) && IsCommentBlock(banner) && Lists(order, o) && PlainKeys(order)
    requires forall i | 0 <= i < |tags| :: Free(tags[i].symbol, '\n')
    ensures Parsed(TomlText(header, tags, banner, order, o)) == o
  {
    hide *;
    forall i, key | 0 <= i < |tags|
      ensures !Brings(tags[i].symbol, key)
    {
      SingleLineBringsNothing(tags[i].symbol, key);
    }
    RoundTripExactly(header, tags, banner, order, o);
  }

  // ----- symbols that hold line feeds -----

  lemma HeadLinesOf(first: string, rest: string)
    requires Free(first, '\n')
    ensures HeadLines(first + "\n" + rest) == [DropCarriageReturn("[suggestions." + first)] + Lines(rest + "]" + "\n")
  {
    assert Free("[suggestions.", '\n');
    JoinedIsFree("[suggestions.", first, '\n');
    HeadSplits("[suggestions.", first, rest, "\n", "]");
    hide Lines, DropCarriageReturn, Free;
    LinesOfMore("[suggestions." + first, rest + "]" + "\n");
  }

  lemma JoinedIsFree(a: string, b: string, c: char)
    requires Free(a, c) && Free(b, c)
    ensures Free(a + b, c)
  {
  }

  lemma HeadSplits(a: string, b: string, c: string, n: string, d: string)
    ensures a + (b + n + c) + d + n == (a + b) + n + (c + d + n)
  {
  }

  /** A symbol that ends in an unclosed header line leaves the overrides table open: the tag's own
      `capability` line is then read as an override. */
  lemma OpenHeadBringsCapability(symbol: string)
    ensures Brings(symbol + "\n" + "[overrides", "capability")
  {
    var front, last := "[suggestions." + symbol + "\n", "[overrides]";
    var ls := HeadLines(symbol + "\n" + "[overrides");
    assert Ended(front) && Free(last, '\n') && DropCarriageReturn(last) == last && Lines("") == [];
    RegroupOpen(symbol);
    assert ls == Lines(front + (last + "\n" + ""));
    ContentKeepsPrefix(last, last);
    hide Lines, HeadLines, HeadText, Content;
    LinesOfMore(last, "");
    LinesAppend(front, last + "\n" + "");
    assert ls == Lines(front) + [last];
    assert ls[|ls| - 1] == last && OpenAt(ls, |ls|);
  }

  lemma RegroupOpen(symbol: string)
    ensures HeadText(symbol + "\n" + "[overrides") == ("[suggestions." + symbol + "\n") + ("[overrides]" + "\n" + "")
  {
    assert "[overrides" + "]" == "[overrides]";
    Regroup("[suggestions.", symbol, "\n", "[overrides", "]");
  }

  lemma Regroup(a: string, b: string, n: string, c: string, d: string)
    ensures a + (b + n + c) + d + n == (a + b + n) + ((c + d) + n + "")
  {
  }

  /** A symbol with an overrides header and an entry on lines of their own brings in any key. */
  lemma SpreadSymbolBringsItsEntry(first: string, k: string, cap: Capability, last: string)
    requires Free(first, '\n') && PlainKey(k)
    ensures Brings(first + "\n" + ("[overrides]" + "\n" + (EntryLine(k, cap) + "\n" + last)), k)
  {
    var entry, table := EntryLine(k, cap), "[overrides]";
    hide EntryLine, Content, HeadLines, EntryFor, PlainKey;
    EntryIsLine(k, cap);
    EntryIsEntryFor(k, cap);
    TableIsLine();
    TwoMoreLines(first, table, entry, last);
    assert OpenAt(HeadLines(first + "\n" + (table + "\n" + (entry + "\n" + last))), 2);
  }

  lemma TableIsLine()
    ensures OneLine("[overrides]") && Content("[overrides]") == "[overrides]"
  {
    ContentKeepsPrefix("[overrides]", "[overrides]");
  }

  lemma TwoMoreLines(first: string, table: string, entry: string, last: string)
    requires Free(first, '\n') && Free(table, '\n') && Free(entry, '\n')
    ensures var ls := HeadLines(first + "\n" + (table + "\n" + (entry + "\n" + last)));
            |ls| >= 3 && ls[1] == DropCarriageReturn(table) && ls[2] == DropCarriageReturn(entry)
  {
    hide *;
    var inner := entry + "\n" + last;
    HeadLinesOf(first, table + "\n" + inner);
    RegroupLine(table, inner);
    LinesOfMore(table, inner + "]" + "\n");
    RegroupLine(entry, last);
    LinesOfMore(entry, last + "]" + "\n");
  }

  lemma RegroupLine(line: string, rest: string)
    ensures (line + "\n" + rest) + "]" + "\n" == line + "\n" + (rest + "]" + "\n")
  {
  }

  lemma EntryIsEntryFor(k: string, cap: Capability)
    requires PlainKey(k)
    ensures EntryFor(EntryLine(k, cap), k)
  {
    ReadLineKeys(Reading(true, map[]), EntryLine(k, cap), k);
    EntryIsRead(Reading(true, map[]), k, cap);
    hide *;
  }

  /** So the file written for one such tag and no overrides does not read back as no overrides. */
  lemma SpreadSymbolBringsAnOverride(tag: CapTag, first: string, k: string, cap: Capability, last: string)
    requires Free(first, '\n') && PlainKey(k)
    requires tag.symbol == first + "\n" + ("[overrides]" + "\n" + (EntryLine(k, cap) + "\n" + last))
    ensures k in Parsed(TomlText([], [tag], [], [], map[]))
  {
    SpreadSymbolBringsItsEntry(first, k, cap, last);
    hide Brings, Parsed, TomlText, SuggestionPart, EntryLine;
    SuggestionKeys([], [tag], k);
    assert [tag][0] == tag;
    OverridesWin([], [tag], [], [], map[]);
  }
}
