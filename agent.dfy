/** The monitoring agent (agent/main.py): the parser of the installed-software listing,
    the configuration whose `agent_id` is always recomputed, and the payload it posts to
    the server. The host facts (psutil, platform), the listing command's output, the
    host and login names, and the uptime and boot-time strings are inputs. */
module AgentClient {
  import opened Json
  import opened Store
  import opened Server
  import opened ServerProperties

  // ---------------------------------------------------------------------------
  // Python's whitespace and line boundaries
  // ---------------------------------------------------------------------------

  /** Python's `str.isspace` for one character. */
  predicate IsSpace(c: char) {
    c == ' ' || ('\t' <= c <= '\r') || ('\U{1C}' <= c <= '\U{1F}') ||
    c == '\U{85}' || c == '\U{A0}' || c == '\U{1680}' || ('\U{2000}' <= c <= '\U{200A}') ||
    c == '\U{2028}' || c == '\U{2029}' || c == '\U{202F}' || c == '\U{205F}' || c == '\U{3000}'
  }

  /** The characters at which Python's `str.splitlines` ends a line. */
  predicate IsLineBreak(c: char) {
    ('\n' <= c <= '\r') || ('\U{1C}' <= c <= '\U{1E}') ||
    c == '\U{85}' || c == '\U{2028}' || c == '\U{2029}'
  }

  /** Every character of `s` is whitespace. */
  predicate AllSpace(s: string) {
    forall k :: 0 <= k < |s| ==> IsSpace(s[k])
  }

  /** No character of `s` is whitespace. */
  predicate NoSpace(s: string) {
    forall k :: 0 <= k < |s| ==> !IsSpace(s[k])
  }

  /** No character of `s` ends a line. */
  predicate NoBreak(s: string) {
    forall k :: 0 <= k < |s| ==> !IsLineBreak(s[k])
  }

  // ---------------------------------------------------------------------------
  // str.splitlines
  // ---------------------------------------------------------------------------

  /** The first line boundary at or after `i`, or `|s|`. */
  function LineEnd(s: string, i: nat): (j: nat)
    requires i <= |s|
    ensures i <= j <= |s| && (forall k :: i <= k < j ==> !IsLineBreak(s[k]))
    ensures j < |s| ==> IsLineBreak(s[j])
    decreases |s| - i
  {
    if i == |s| || IsLineBreak(s[i]) then i else LineEnd(s, i + 1)
  }

  /** The width of the line boundary at `j`: `"\r\n"` counts as one boundary. */
  function BreakWidth(s: string, j: nat): (w: nat)
    requires j < |s| && IsLineBreak(s[j])
    ensures 1 <= w && j + w <= |s|
  {
    if s[j] == '\r' && j + 1 < |s| && s[j + 1] == '\n' then 2 else 1
  }

  /** Python's `s.splitlines()`: the lines without their boundaries; a boundary at the
      very end does not start another line. */
  function SplitLines(s: string): seq<string>
    decreases |s|
  {
    if s == [] then []
    else
      var j := LineEnd(s, 0);
      if j == |s| then [s]
      else [s[..j]] + SplitLines(s[j + BreakWidth(s, j)..])
  }

  /** `s` with every line-boundary character removed. */
  function DropBreaks(s: string): string {
    if s == [] then []
    else (if IsLineBreak(s[0]) then [] else [s[0]]) + DropBreaks(s[1..])
  }

  /** The lines joined end to end. */
  function Concat(lines: seq<string>): string {
    if lines == [] then [] else lines[0] + Concat(lines[1..])
  }

  lemma {:induction false} DropBreaksAppend(a: string, b: string)
    ensures DropBreaks(a + b) == DropBreaks(a) + DropBreaks(b)
    decreases |a|
  {
    if a == [] {
      assert a + b == b;
    } else {
      assert (a + b)[0] == a[0] && (a + b)[1..] == a[1..] + b;
      var head := if IsLineBreak(a[0]) then [] else [a[0]];
      assert DropBreaks(a + b) == head + DropBreaks(a[1..] + b);
      DropBreaksAppend(a[1..], b);
    }
  }

  lemma {:induction false} DropBreaksNone(s: string)
    requires NoBreak(s)
    ensures DropBreaks(s) == s
    decreases |s|
  {
    if s != [] {
      DropBreaksNone(s[1..]);
    }
  }

  lemma {:induction false} DropBreaksAll(s: string)
    requires forall k :: 0 <= k < |s| ==> IsLineBreak(s[k])
    ensures DropBreaks(s) == []
    decreases |s|
  {
    if s != [] {
      DropBreaksAll(s[1..]);
    }
  }

  /** `splitlines` loses nothing but the boundaries: no line holds a boundary character,
      the lines joined give back the text without its boundaries, and there are no more
      lines than characters. */
  lemma {:induction false} SplitLinesContent(s: string)
    ensures forall k :: 0 <= k < |SplitLines(s)| ==> NoBreak(SplitLines(s)[k])
    ensures Concat(SplitLines(s)) == DropBreaks(s)
    ensures |SplitLines(s)| <= |s|
    decreases |s|
  {
    if s != [] {
      var j := LineEnd(s, 0);
      if j == |s| {
        DropBreaksNone(s);
        assert Concat([s]) == s + Concat([]);
      } else {
        var rest := s[j + BreakWidth(s, j)..];
        SplitLinesContent(rest);
        FirstLine(s);
      }
    }
  }

  /** The first line of a text with a boundary: the text is that line, the boundary and
      the rest, and dropping the boundaries of the text drops them from the rest. */
  lemma FirstLine(s: string)
    requires s != [] && LineEnd(s, 0) < |s|
    ensures var j := LineEnd(s, 0);
      var rest := s[j + BreakWidth(s, j)..];
      SplitLines(s) == [s[..j]] + SplitLines(rest) &&
      NoBreak(s[..j]) && DropBreaks(s) == s[..j] + DropBreaks(rest)
  {
    var j := LineEnd(s, 0);
    var w := BreakWidth(s, j);
    assert NoBreak(s[..j]);
    DropAround(s, j, w);
  }

  /** Dropping the boundaries of text, boundary, rest. */
  lemma DropAround(s: string, j: nat, w: nat)
    requires j + w <= |s| && NoBreak(s[..j])
    requires forall k :: j <= k < j + w ==> IsLineBreak(s[k])
    ensures DropBreaks(s) == s[..j] + DropBreaks(s[j + w..])
  {
    var mid := s[j..j + w];
    assert s == s[..j] + (mid + s[j + w..]);
    forall k | 0 <= k < |mid|
      ensures IsLineBreak(mid[k])
    {
      assert mid[k] == s[j + k];
    }
    DropThree(s[..j], mid, s[j + w..]);
  }

  lemma DropThree(line: string, mid: string, rest: string)
    requires NoBreak(line) && forall k :: 0 <= k < |mid| ==> IsLineBreak(mid[k])
    ensures DropBreaks(line + (mid + rest)) == line + DropBreaks(rest)
  {
    DropBreaksAll(mid);
    DropBreaksNone(line);
    DropBreaksAppend(mid, rest);
    DropBreaksAppend(line, mid + rest);
    assert [] + DropBreaks(rest) == DropBreaks(rest);
  }

  /** The lines written back out, each followed by `"\n"`. */
  function Terminated(lines: seq<string>): string {
    if lines == [] then [] else lines[0] + "\n" + Terminated(lines[1..])
  }

  /** Every line boundary of `s` is a plain `"\n"`. */
  predicate NewlinesOnly(s: string) {
    forall k :: 0 <= k < |s| && IsLineBreak(s[k]) ==> s[k] == '\n'
  }

  /** `s` with each line boundary written as one `"\n"`: `"\r\n"` becomes a single
      `"\n"`, and so does every other boundary character. */
  function Newlined(s: string): string
    decreases |s|
  {
    if s == [] then []
    else if IsLineBreak(s[0]) then "\n" + Newlined(s[BreakWidth(s, 0)..])
    else [s[0]] + Newlined(s[1..])
  }

  /** The text with a final `"\n"` added unless it is empty or already ends with one. */
  function Closed(s: string): string {
    if s == [] || s[|s| - 1] == '\n' then s else s + "\n"
  }

  lemma ClosedAfterLine(line: string, rest: string)
    ensures Closed(line + "\n" + rest) == line + "\n" + Closed(rest)
  {
    var s := line + "\n" + rest;
    if rest == [] {
      assert s == line + "\n";
    } else {
      assert s[|s| - 1] == rest[|rest| - 1];
      assert s + "\n" == line + "\n" + (rest + "\n");
    }
  }

  /** `splitlines` cuts exactly at each line boundary, counts `"\r\n"` as one boundary
      and keeps the empty lines between two boundaries: writing the lines back out, each
      followed by `"\n"`, gives the text with every boundary written as `"\n"`, and with
      a `"\n"` added when the text did not end with a boundary. For text whose only
      boundaries are `"\n"`, that is the text itself. */
  lemma {:induction false} SplitLinesRoundTrip(s: string)
    ensures Terminated(SplitLines(s)) == Closed(Newlined(s))
    ensures NewlinesOnly(s) ==> Terminated(SplitLines(s)) == Closed(s)
    decreases |s|
  {
    if s != [] {
      var j := LineEnd(s, 0);
      if j == |s| {
        NewlinedNoBreak(s);
        assert Terminated([s]) == s + "\n" + Terminated([]);
        assert !IsLineBreak(s[|s| - 1]);
      } else {
        var rest := s[j + BreakWidth(s, j)..];
        FirstLine(s);
        NewlinedLine(s, j);
        SplitLinesRoundTrip(rest);
        TerminatedCons(s[..j], SplitLines(rest));
        ClosedAfterLine(s[..j], Newlined(rest));
      }
    }
    if NewlinesOnly(s) {
      NewlinedIdentity(s);
    }
  }

  /** Text without a boundary is written back as it is. */
  lemma {:induction false} NewlinedNoBreak(s: string)
    requires NoBreak(s)
    ensures Newlined(s) == s
    decreases |s|
  {
    if s != [] {
      NewlinedNoBreak(s[1..]);
    }
  }

  /** Text whose only boundaries are `"\n"` is written back as it is. */
  lemma {:induction false} NewlinedIdentity(s: string)
    requires NewlinesOnly(s)
    ensures Newlined(s) == s
    decreases |s|
  {
    if s != [] {
      var rest := s[1..];
      forall k | 0 <= k < |rest| && IsLineBreak(rest[k])
        ensures rest[k] == '\n'
      {
        assert rest[k] == s[k + 1];
      }
      NewlinedIdentity(rest);
      if IsLineBreak(s[0]) {
        assert BreakWidth(s, 0) == 1;
      }
    }
  }

  /** Writing back text whose first boundary is at `j`: the line, one `"\n"`, then the
      text after the boundary written back. */
  lemma {:induction false} NewlinedLine(s: string, j: nat)
    requires j < |s| && NoBreak(s[..j]) && IsLineBreak(s[j])
    ensures Newlined(s) == s[..j] + "\n" + Newlined(s[j + BreakWidth(s, j)..])
    decreases j
  {
    if j > 0 {
      var t := s[1..];
      var line := t[..j - 1];
      forall k | 0 <= k < |line|
        ensures !IsLineBreak(line[k])
      {
        assert line[k] == s[..j][k + 1];
      }
      assert t[j - 1] == s[j];
      assert BreakWidth(t, j - 1) == BreakWidth(s, j);
      assert t[j - 1 + BreakWidth(t, j - 1)..] == s[j + BreakWidth(s, j)..];
      NewlinedLine(t, j - 1);
      assert !IsLineBreak(s[..j][0]);
      assert s[..j] == [s[0]] + t[..j - 1];
    }
  }

  lemma TerminatedCons(line: string, lines: seq<string>)
    ensures Terminated([line] + lines) == line + "\n" + Terminated(lines)
  {
    assert ([line] + lines)[1..] == lines;
  }

  // ---------------------------------------------------------------------------
  // One line of the listing
  // ---------------------------------------------------------------------------

  /** The first non-whitespace position at or after `i`, or `|s|`. */
  function SkipSpace(s: string, i: nat): (j: nat)
    requires i <= |s|
    ensures i <= j <= |s| && (forall k :: i <= k < j ==> IsSpace(s[k]))
    ensures j < |s| ==> !IsSpace(s[j])
    decreases |s| - i
  {
    if i == |s| || !IsSpace(s[i]) then i else SkipSpace(s, i + 1)
  }

  /** The first whitespace position at or after `i`, or `|s|`. */
  function SkipWord(s: string, i: nat): (j: nat)
    requires i <= |s|
    ensures i <= j <= |s| && (forall k :: i <= k < j ==> !IsSpace(s[k]))
    ensures j < |s| ==> IsSpace(s[j])
    decreases |s| - i
  {
    if i == |s| || IsSpace(s[i]) then i else SkipWord(s, i + 1)
  }

  /** Python's `s.split(None, 1)`: leading whitespace is skipped, the first word is cut at
      the whitespace run that follows it, and whatever comes after that run, trailing
      whitespace included, is the second part. */
  function SplitOnce(s: string): (parts: seq<string>)
    ensures |parts| <= 2
  {
    var a := SkipSpace(s, 0);
    if a == |s| then []
    else
      var b := SkipWord(s, a);
      var c := SkipSpace(s, b);
      if c == |s| then [s[a..b]] else [s[a..b], s[c..]]
  }

  /** The body of the listing loop for one line: blank lines (`not line.strip()`) and
      lines that do not split in two are skipped; otherwise the name and the version. */
  function ParseLine(line: string): Option<(string, string)> {
    if AllSpace(line) then None
    else
      var parts := SplitOnce(line);
      if |parts| == 2 then Some((parts[0], parts[1])) else None
  }

  /** `line` is leading whitespace, then `name` (a word: non-empty, no whitespace), then a
      non-empty whitespace run, then `version`, which is non-empty and starts with a
      non-whitespace character; any trailing whitespace belongs to the version. */
  ghost predicate Decomposes(line: string, name: string, version: string) {
    name != [] && NoSpace(name) && version != [] && !IsSpace(version[0]) &&
    exists lead, gap :: AllSpace(lead) && AllSpace(gap) && gap != [] &&
      line == lead + name + gap + version
  }

  /** The parser keeps exactly the lines that decompose into a word, a whitespace run and
      a version, and returns that word and that version. */
  lemma ParseLineIff(line: string, name: string, version: string)
    ensures ParseLine(line) == Some((name, version)) <==> Decomposes(line, name, version)
  {
    if ParseLine(line) == Some((name, version)) {
      ParsedDecomposes(line);
    }
    if Decomposes(line, name, version) {
      DecomposedParses(line, name, version);
    }
  }

  /** A kept line decomposes into what the parser returns. */
  lemma ParsedDecomposes(line: string)
    requires ParseLine(line).Some?
    ensures Decomposes(line, ParseLine(line).value.0, ParseLine(line).value.1)
  {
    var a := SkipSpace(line, 0);
    var b := SkipWord(line, a);
    var c := SkipSpace(line, b);
    var name, version := line[a..b], line[c..];
    assert ParseLine(line).value == (name, version);
    var lead, gap := line[..a], line[b..c];
    assert AllSpace(lead) && AllSpace(gap);
    Slices(line, a, b, c);
  }

  /** A string is the concatenation of its pieces cut at `a`, `b` and `c`. */
  lemma Slices(s: string, a: nat, b: nat, c: nat)
    requires a <= b <= c <= |s|
    ensures s == s[..a] + s[a..b] + s[b..c] + s[c..]
  {
    assert s[..a] + s[a..b] == s[..b];
    assert s[..b] + s[b..c] == s[..c];
    assert s[..c] + s[c..] == s;
  }

  /** A line that decomposes is kept, with the name and version of the decomposition. */
  lemma DecomposedParses(line: string, name: string, version: string)
    requires Decomposes(line, name, version)
    ensures ParseLine(line) == Some((name, version))
  {
    var lead, gap :| AllSpace(lead) && AllSpace(gap) && gap != [] &&
      line == lead + name + gap + version;
    var a, b, c := |lead|, |lead| + |name|, |lead| + |name| + |gap|;
    FourParts(line, lead, name, gap, version, a, b, c);
    SplitAt(line, a, b, c);
    assert SplitOnce(line) == [name, version];
    assert !AllSpace(line) by {
      assert !IsSpace(line[a]);
    }
  }

  /** The positions of the four parts of a decomposed line. */
  lemma FourParts(line: string, lead: string, name: string, gap: string, version: string, a: nat, b: nat, c: nat)
    requires AllSpace(lead) && NoSpace(name) && name != [] && AllSpace(gap) && gap != []
    requires version != [] && !IsSpace(version[0])
    requires line == lead + name + gap + version
    requires a == |lead| && b == a + |name| && c == b + |gap|
    ensures a < b < c < |line|
    ensures forall k :: 0 <= k < a ==> IsSpace(line[k])
    ensures forall k :: a <= k < b ==> !IsSpace(line[k])
    ensures forall k :: b <= k < c ==> IsSpace(line[k])
    ensures !IsSpace(line[c]) && line[a..b] == name && line[c..] == version
  {
    assert forall k :: 0 <= k < a ==> line[k] == lead[k];
    assert forall k :: a <= k < b ==> line[k] == name[k - a];
    assert forall k :: b <= k < c ==> line[k] == gap[k - b];
    assert line[c] == version[0];
    assert line[a..b] == name && line[c..] == version;
  }

  /** Whitespace up to `a`, a word up to `b`, whitespace up to `c`, then a non-whitespace
      character: the split cuts there. */
  lemma SplitAt(line: string, a: nat, b: nat, c: nat)
    requires a < b < c < |line|
    requires forall k :: 0 <= k < a ==> IsSpace(line[k])
    requires forall k :: a <= k < b ==> !IsSpace(line[k])
    requires forall k :: b <= k < c ==> IsSpace(line[k])
    requires !IsSpace(line[c])
    ensures SplitOnce(line) == [line[a..b], line[c..]]
  {
    SkipSpaceAt(line, 0, a);
    SkipWordAt(line, a, b);
    SkipSpaceAt(line, b, c);
  }

  /** A whitespace run from `i` up to a non-whitespace character at `j` is skipped to `j`. */
  lemma SkipSpaceAt(s: string, i: nat, j: nat)
    requires i <= j < |s| && (forall k :: i <= k < j ==> IsSpace(s[k])) && !IsSpace(s[j])
    ensures SkipSpace(s, i) == j
  {
  }

  /** A word from `i` up to a whitespace character at `j` ends at `j`. */
  lemma SkipWordAt(s: string, i: nat, j: nat)
    requires i <= j < |s| && (forall k :: i <= k < j ==> !IsSpace(s[k])) && IsSpace(s[j])
    ensures SkipWord(s, i) == j
  {
  }

  /** A blank line splits into nothing, so the `strip` test only saves the split. */
  lemma BlankSplitsEmpty(line: string)
    requires AllSpace(line)
    ensures SplitOnce(line) == []
  {
    assert SkipSpace(line, 0) == |line|;
  }

  // ---------------------------------------------------------------------------
  // The whole listing
  // ---------------------------------------------------------------------------

  /** The present values of `rs`, in order. */
  function Kept<T>(rs: seq<Option<T>>): seq<T>
    decreases |rs|
  {
    if rs == [] then []
    else
      var before := Kept(rs[..|rs| - 1]);
      match rs[|rs| - 1]
      case None => before
      case Some(x) => before + [x]
  }

  /** What the loop body makes of each line, in line order. */
  function Results(lines: seq<string>): (rs: seq<Option<(string, string)>>)
    ensures |rs| == |lines|
  {
    seq(|lines|, k requires 0 <= k < |lines| => ParseLine(lines[k]))
  }

  /** The entries the loop collects from `lines`, in line order. */
  function Parsed(lines: seq<string>): seq<(string, string)> {
    Kept(Results(lines))
  }

  /** `list_installed_software_with_version` once the listing command has printed
      `output`. */
  method ListInstalledSoftware(output: string) returns (installed: seq<(string, string)>)
    ensures installed == Parsed(SplitLines(output))
  {
    var lines := SplitLines(output);
    ghost var rs := Results(lines);
    installed := [];
    for i := 0 to |lines|
      invariant installed == Kept(rs[..i])
    {
      assert rs[..i + 1][..i] == rs[..i];
      assert rs[i] == ParseLine(lines[i]);
      var line := lines[i];
      if !AllSpace(line) {
        var parts := SplitOnce(line);
        if |parts| == 2 {
          var name, version := parts[0], parts[1];
          installed := installed + [(name, version)];
        }
      }
    }
    assert rs[..|lines|] == rs;
  }

  lemma {:induction false} KeptAppend<T>(a: seq<Option<T>>, b: seq<Option<T>>)
    ensures Kept(a + b) == Kept(a) + Kept(b)
    decreases |b|
  {
    if b == [] {
      assert a + b == a;
    } else {
      var init := b[..|b| - 1];
      KeptAppend(a, init);
      assert (a + b)[..|a + b| - 1] == a + init;
      assert (a + b)[|a + b| - 1] == b[|b| - 1];
    }
  }

  lemma {:induction false} KeptLength<T>(rs: seq<Option<T>>)
    ensures |Kept(rs)| <= |rs|
    decreases |rs|
  {
    if rs != [] {
      KeptLength(rs[..|rs| - 1]);
    }
  }

  lemma {:induction false} KeptHas<T>(rs: seq<Option<T>>, x: T)
    ensures x in Kept(rs) <==> exists k :: 0 <= k < |rs| && rs[k] == Some(x)
    decreases |rs|
  {
    if rs != [] {
      var init := rs[..|rs| - 1];
      KeptHas(init, x);
      assert forall k :: 0 <= k < |init| ==> rs[k] == init[k];
    }
  }

  /** Listing two runs of lines one after the other gives their entries one after the
      other: entries keep the order of their lines. */
  lemma ParsedAppend(a: seq<string>, b: seq<string>)
    ensures Parsed(a + b) == Parsed(a) + Parsed(b)
  {
    assert Results(a + b) == Results(a) + Results(b);
    KeptAppend(Results(a), Results(b));
  }

  /** An entry is collected exactly when some line parses to it; there are never more
      entries than lines. */
  lemma ParsedEntries(lines: seq<string>)
    ensures |Parsed(lines)| <= |lines|
    ensures forall p :: p in Parsed(lines) <==> exists k :: 0 <= k < |lines| && ParseLine(lines[k]) == Some(p)
  {
    var rs := Results(lines);
    KeptLength(rs);
    forall p
      ensures p in Parsed(lines) <==> exists k :: 0 <= k < |lines| && ParseLine(lines[k]) == Some(p)
    {
      KeptHas(rs, p);
      if p in Parsed(lines) {
        var k :| 0 <= k < |rs| && rs[k] == Some(p);
        assert ParseLine(lines[k]) == Some(p);
      }
      if exists k :: 0 <= k < |lines| && ParseLine(lines[k]) == Some(p) {
        var k :| 0 <= k < |lines| && ParseLine(lines[k]) == Some(p);
        assert rs[k] == Some(p);
      }
    }
  }

  /** Every collected entry is a non-empty name without whitespace and a non-empty version
      that starts with a non-whitespace character and holds no line boundary. */
  lemma ListedEntryShape(output: string, p: (string, string))
    requires p in Parsed(SplitLines(output))
    ensures p.0 != [] && NoSpace(p.0) && p.1 != [] && !IsSpace(p.1[0]) && NoBreak(p.1)
  {
    var lines := SplitLines(output);
    ParsedEntries(lines);
    SplitLinesContent(output);
    var k :| 0 <= k < |lines| && ParseLine(lines[k]) == Some(p);
    EntryShape(lines[k], p);
  }

  /** What a line without boundaries parses to is a word and a version without
      boundaries that starts with a non-whitespace character. */
  lemma EntryShape(line: string, p: (string, string))
    requires NoBreak(line) && ParseLine(line) == Some(p)
    ensures p.0 != [] && NoSpace(p.0) && p.1 != [] && !IsSpace(p.1[0]) && NoBreak(p.1)
  {
    var a := SkipSpace(line, 0);
    var b := SkipWord(line, a);
    var c := SkipSpace(line, b);
    assert p == (line[a..b], line[c..]);
    assert forall i :: 0 <= i < |p.0| ==> p.0[i] == line[a + i];
    assert forall i :: 0 <= i < |p.1| ==> p.1[i] == line[c + i];
  }

  // ---------------------------------------------------------------------------
  // Configuration
  // ---------------------------------------------------------------------------

  /** The server URL written to a fresh config.json. */
  const DefaultServerUrl: string := "http://127.0.0.1:8080/receive_device_info"

  /** The configuration written when config.json does not exist. */
  const DefaultConfig: Json := JObj(map["server_url" := JStr(DefaultServerUrl), "agent_id" := JNull])

  /** The agent's identity: host name, a dash, login name. */
  function AgentId(node: string, login: string): string {
    node + "-" + login
  }

  /** `load_config`: `stored` is the parsed config.json, or `None` when the file does not
      exist (the default is then used). Assigning `agent_id` raises TypeError unless the
      configuration is a JSON object. */
  function LoadAgentConfig(stored: Option<Json>, node: string, login: string): (r: Result<Json>)
    ensures var config := if stored.Some? then stored.value else DefaultConfig;
      r.Ok? <==> config.JObj?
    ensures r.Err? ==> r.fault == TypeError
    ensures r.Ok? ==> Get(r.value, Key("agent_id")) == Ok(JStr(AgentId(node, login)))
    ensures r.Ok? && stored.Some? ==>
      forall k :: k != "agent_id" ==> Get(r.value, Key(k)) == Get(stored.value, Key(k))
  {
    var config := if stored.Some? then stored.value else DefaultConfig;
    match config
    case JObj(fields) => Ok(JObj(fields["agent_id" := JStr(AgentId(node, login))]))
    case _ => Err(TypeError)
  }

  /** Whatever config.json says the `agent_id` is, the loaded configuration is the same. */
  lemma StoredAgentIdIgnored(fields: map<string, Json>, old_id: Json, node: string, login: string)
    ensures LoadAgentConfig(Some(JObj(fields[ "agent_id" := old_id])), node, login) ==
            LoadAgentConfig(Some(JObj(fields)), node, login)
  {
    var a := LoadAgentConfig(Some(JObj(fields["agent_id" := old_id])), node, login);
    var b := LoadAgentConfig(Some(JObj(fields)), node, login);
    assert a.value.fields == b.value.fields;
  }

  /** Without config.json the agent posts to the local default server URL. */
  lemma DefaultConfigServer(node: string, login: string)
    ensures var r := LoadAgentConfig(None, node, login);
      r.Ok? && Get(r.value, Key("server_url")) == Ok(JStr(DefaultServerUrl)) &&
      r.value.fields.Keys == {"server_url", "agent_id"}
  {
  }

  // ---------------------------------------------------------------------------
  // The payload
  // ---------------------------------------------------------------------------

  datatype SystemInfo = SystemInfo(system: string, nodeName: string, release: string,
                                   version: string, machine: string, processor: string)
  datatype MemoryInfo = MemoryInfo(total: nat, available: nat, used: nat, percent: real)
  datatype CpuInfo = CpuInfo(percent: real)
  datatype DiskInfo = DiskInfo(total: nat, used: nat, free: nat, percent: real)
  datatype OsInfo = OsInfo(name: string, version: string, release: string)

  /** What the collectors report about the host. */
  datatype HostFacts = HostFacts(system: SystemInfo, memory: MemoryInfo, cpu: CpuInfo,
                                 disk: DiskInfo, os: OsInfo)

  /** The dictionary each collector returns, as it travels in JSON. */
  function GroupDict(f: HostFacts, g: Group): map<string, Json> {
    match g
    case System =>
      map["system" := JStr(f.system.system), "node_name" := JStr(f.system.nodeName),
          "release" := JStr(f.system.release), "version" := JStr(f.system.version),
          "machine" := JStr(f.system.machine), "processor" := JStr(f.system.processor)]
    case Memory =>
      map["total_memory" := JNum(f.memory.total as real),
          "available_memory" := JNum(f.memory.available as real),
          "used_memory" := JNum(f.memory.used as real), "memory_percent" := JNum(f.memory.percent)]
    case Cpu => map["cpu_percent" := JNum(f.cpu.percent)]
    case Disk =>
      map["total_disk" := JNum(f.disk.total as real), "used_disk" := JNum(f.disk.used as real),
          "free_disk" := JNum(f.disk.free as real), "disk_percent" := JNum(f.disk.percent)]
    case Os =>
      map["os_name" := JStr(f.os.name), "os_version" := JStr(f.os.version),
          "os_release" := JStr(f.os.release)]
  }

  /** The host facts of group `g`, in the order of the server's columns for that group. */
  function GroupValues(f: HostFacts, g: Group): seq<Json> {
    match g
    case System =>
      [JStr(f.system.system), JStr(f.system.nodeName), JStr(f.system.release),
       JStr(f.system.version), JStr(f.system.machine), JStr(f.system.processor)]
    case Memory =>
      [JNum(f.memory.total as real), JNum(f.memory.available as real),
       JNum(f.memory.used as real), JNum(f.memory.percent)]
    case Cpu => [JNum(f.cpu.percent)]
    case Disk =>
      [JNum(f.disk.total as real), JNum(f.disk.used as real), JNum(f.disk.free as real),
       JNum(f.disk.percent)]
    case Os => [JStr(f.os.name), JStr(f.os.version), JStr(f.os.release)]
  }

  /** The installed-software list as JSON: each `(name, version)` tuple becomes a
      two-element array. */
  function SoftwareJson(sw: seq<(string, string)>): (j: Json)
    ensures j.JArr? && |j.items| == |sw|
    ensures forall k :: 0 <= k < |sw| ==> j.items[k] == JArr([JStr(sw[k].0), JStr(sw[k].1)])
  {
    JArr(seq(|sw|, k requires 0 <= k < |sw| => JArr([JStr(sw[k].0), JStr(sw[k].1)])))
  }

  /** The dictionary `run_agent` builds; `config["agent_id"]` raises as Python would. */
  function Payload(config: Json, f: HostFacts, sw: seq<(string, string)>,
                   uptime: string, bootTime: string): Result<Json>
  {
    match Get(config, Key("agent_id"))
    case Err(e) => Err(e)
    case Ok(id) =>
      Ok(JObj(map[
        "agent_id" := id,
        "system_info" := JObj(GroupDict(f, System)),
        "memory_info" := JObj(GroupDict(f, Memory)),
        "cpu_info" := JObj(GroupDict(f, Cpu)),
        "disk_info" := JObj(GroupDict(f, Disk)),
        "os_info" := JObj(GroupDict(f, Os)),
        "installed_software" := SoftwareJson(sw),
        "uptime" := JStr(uptime),
        "boot_time" := JStr(bootTime)]))
  }

  /** What `run_agent` hands to the sender: the payload and `config["server_url"]`, read
      after the payload is built. */
  function Submission(config: Json, f: HostFacts, sw: seq<(string, string)>,
                      uptime: string, bootTime: string): (r: Result<(Json, Json)>)
    ensures r.Ok? <==> Get(config, Key("agent_id")).Ok? && Get(config, Key("server_url")).Ok?
  {
    match Payload(config, f, sw, uptime, bootTime)
    case Err(e) => Err(e)
    case Ok(p) =>
      match Get(config, Key("server_url"))
      case Err(e) => Err(e)
      case Ok(url) => Ok((p, url))
  }

  /** The entries the server derives from the agent's list: entry `k` for `k` from 1,
      numbered `k`, with name and version cut to 45 characters and spaces removed from
      the version. */
  function Normalised(sw: seq<(string, string)>): seq<Software> {
    seq(if |sw| <= 1 then 0 else |sw| - 1, k requires 0 <= k < |sw| - 1 =>
      Software(k + 1, Take(sw[k + 1].0, MaxLength), RemoveSpaces(Take(sw[k + 1].1, MaxLength))))
  }

  /** Reading every column of a dictionary that holds them all gives their values. */
  lemma LookupAll(m: map<string, Json>, cols: seq<string>, vals: seq<Json>)
    requires |vals| == |cols|
    requires forall i :: 0 <= i < |cols| ==> cols[i] in m && m[cols[i]] == vals[i]
    ensures Lookup(JObj(m), cols) == Ok(vals)
  {
    var r := Lookup(JObj(m), cols);
    if r.Err? {
      assert false;
    }
    forall i | 0 <= i < |cols|
      ensures r.value[i] == vals[i]
    {
      assert Get(JObj(m), Key(cols[i])) == Ok(r.value[i]);
    }
    assert r.value == vals;
  }

  /** The payload carries every field the server requires, and the agent's identity. */
  lemma PayloadComplete(config: Json, f: HostFacts, sw: seq<(string, string)>, uptime: string, bootTime: string)
    requires Payload(config, f, sw, uptime, bootTime).Ok?
    ensures var p := Payload(config, f, sw, uptime, bootTime).value;
      Truthy(p) && FirstAbsent(p, RequiredFields) == AllPresent &&
      Get(p, Key("agent_id")) == Get(config, Key("agent_id"))
  {
    var p := Payload(config, f, sw, uptime, bootTime).value;
    assert "agent_id" in p.fields;
    forall i | 0 <= i < |RequiredFields|
      ensures Contains(p, RequiredFields[i]) == Ok(true)
    {
      assert RequiredFields[i] in p.fields by {
        if i == 0 {} else if i == 1 {} else if i == 2 {} else if i == 3 {}
        else if i == 4 {} else if i == 5 {} else if i == 6 {} else {}
      }
    }
  }

  /** The server reads back exactly the values each collector reported, in its own
      column order. */
  lemma PayloadFacts(config: Json, f: HostFacts, sw: seq<(string, string)>, uptime: string, bootTime: string, g: Group)
    requires Payload(config, f, sw, uptime, bootTime).Ok?
    ensures FactValues(Payload(config, f, sw, uptime, bootTime).value, g) == Ok(GroupValues(f, g))
  {
    var p := Payload(config, f, sw, uptime, bootTime).value;
    assert Get(p, Key(BodyKey(g))) == Ok(JObj(GroupDict(f, g))) by {
      match g
      case System =>
      case Memory =>
      case Cpu =>
      case Disk =>
      case Os =>
    }
    match g
    case System => SystemLookup(f);
    case Memory => MemoryLookup(f);
    case Cpu => LookupAll(GroupDict(f, g), Columns(g), GroupValues(f, g));
    case Disk => DiskLookup(f);
    case Os => OsLookup(f);
  }

  lemma SystemLookup(f: HostFacts)
    ensures Lookup(JObj(GroupDict(f, System)), Columns(System)) == Ok(GroupValues(f, System))
  {
    var m, cols, vals := GroupDict(f, System), Columns(System), GroupValues(f, System);
    forall i | 0 <= i < |cols|
      ensures cols[i] in m && m[cols[i]] == vals[i]
    {
      if i == 0 {} else if i == 1 {} else if i == 2 {} else if i == 3 {} else if i == 4 {} else {}
    }
    LookupAll(m, cols, vals);
  }

  lemma MemoryLookup(f: HostFacts)
    ensures Lookup(JObj(GroupDict(f, Memory)), Columns(Memory)) == Ok(GroupValues(f, Memory))
  {
    var m, cols, vals := GroupDict(f, Memory), Columns(Memory), GroupValues(f, Memory);
    forall i | 0 <= i < |cols|
      ensures cols[i] in m && m[cols[i]] == vals[i]
    {
      if i == 0 {} else if i == 1 {} else if i == 2 {} else {}
    }
    LookupAll(m, cols, vals);
  }

  lemma DiskLookup(f: HostFacts)
    ensures Lookup(JObj(GroupDict(f, Disk)), Columns(Disk)) == Ok(GroupValues(f, Disk))
  {
    var m, cols, vals := GroupDict(f, Disk), Columns(Disk), GroupValues(f, Disk);
    forall i | 0 <= i < |cols|
      ensures cols[i] in m && m[cols[i]] == vals[i]
    {
      if i == 0 {} else if i == 1 {} else if i == 2 {} else {}
    }
    LookupAll(m, cols, vals);
  }

  lemma OsLookup(f: HostFacts)
    ensures Lookup(JObj(GroupDict(f, Os)), Columns(Os)) == Ok(GroupValues(f, Os))
  {
    var m, cols, vals := GroupDict(f, Os), Columns(Os), GroupValues(f, Os);
    forall i | 0 <= i < |cols|
      ensures cols[i] in m && m[cols[i]] == vals[i]
    {
      if i == 0 {} else if i == 1 {} else {}
    }
    LookupAll(m, cols, vals);
  }

  /** The server's scan of the agent's list never raises, skips the first entry and
      stores every other one, normalised, under its position as id. */
  lemma PayloadInventory(config: Json, f: HostFacts, sw: seq<(string, string)>, uptime: string, bootTime: string)
    requires Payload(config, f, sw, uptime, bootTime).Ok?
    ensures Inventory(Payload(config, f, sw, uptime, bootTime).value) == Some(Scan(Normalised(sw), None))
  {
    var p := Payload(config, f, sw, uptime, bootTime).value;
    var j := SoftwareJson(sw);
    assert Get(p, Key("installed_software")) == Ok(j);
    SoftwareScan(sw);
  }

  /** Each entry of the agent's list, from the second on, normalises without raising. */
  lemma SoftwareEntries(sw: seq<(string, string)>)
    ensures var rs := Entries(SoftwareJson(sw), |sw|);
      forall k :: 0 <= k < |rs| ==>
        rs[k] == Ok((Normalised(sw)[k].name, Normalised(sw)[k].version))
  {
    var j := SoftwareJson(sw);
    var rs := Entries(j, |sw|);
    forall k | 0 <= k < |rs|
      ensures rs[k] == Ok((Normalised(sw)[k].name, Normalised(sw)[k].version))
    {
      var item := j.items[k + 1];
      assert Get(j, Index(k + 1)) == Ok(item);
      assert Column(item, 0) == Ok(sw[k + 1].0);
      assert Column(item, 1) == Ok(sw[k + 1].1);
    }
  }

  /** The scan of the agent's list yields its normalised entries and no exception. */
  lemma SoftwareScan(sw: seq<(string, string)>)
    ensures Candidates(SoftwareJson(sw), |sw|) == Scan(Normalised(sw), None)
  {
    var rs := Entries(SoftwareJson(sw), |sw|);
    SoftwareEntries(sw);
    ScanShape(rs);
    var r := ScanFrom(rs);
    assert r.fault.None?;
    forall k | 0 <= k < |r.entries|
      ensures r.entries[k] == Normalised(sw)[k]
    {
      assert rs[k] == Ok((r.entries[k].name, r.entries[k].version));
    }
  }

  /** One run of the agent from start to finish: with the configuration `load_config`
      produced, the server whose device is registered accepts the payload, records the
      agent `host-login` once, each group's reported values once, and every listed
      program after the first once per name and version; the devices table is
      untouched. */
  lemma AgentRunStored(stored: Option<Json>, node: string, login: string, f: HostFacts,
                       output: string, uptime: string, bootTime: string, t: Tables, mac: string)
    requires LoadAgentConfig(stored, node, login).Ok?
    requires DeviceKnown(t.devices, mac)
    ensures var config := LoadAgentConfig(stored, node, login).value;
      var sw := Parsed(SplitLines(output));
      var id := JStr(AgentId(node, login));
      Payload(config, f, sw, uptime, bootTime).Ok? &&
      Handle(t, mac, Payload(config, f, sw, uptime, bootTime).value) ==
        Outcome(Tables(t.devices, DedupInsert(t.agents, Agent(id)),
                       DedupInsert(t.system, Fact(id, GroupValues(f, System))),
                       DedupInsert(t.memory, Fact(id, GroupValues(f, Memory))),
                       DedupInsert(t.cpu, Fact(id, GroupValues(f, Cpu))),
                       DedupInsert(t.disk, Fact(id, GroupValues(f, Disk))),
                       DedupInsert(t.os, Fact(id, GroupValues(f, Os))),
                       InsertAll(t.software, Normalised(sw))),
                Success)
  {
    var config := LoadAgentConfig(stored, node, login).value;
    var sw := Parsed(SplitLines(output));
    var p := Payload(config, f, sw, uptime, bootTime).value;
    PayloadComplete(config, f, sw, uptime, bootTime);
    PayloadInventory(config, f, sw, uptime, bootTime);
    forall g ensures FactValues(p, g) == Ok(GroupValues(f, g)) {
      PayloadFacts(config, f, sw, uptime, bootTime, g);
    }
    HandleSucceedsIff(t, mac, p);
    SuccessTables(t, mac, p);
  }
}
