/** Rewriting assignments line by line, as `_persist_in_place` of artpm_agent/api/config_admin.py does,
    and what the rewritten lines read back as. */
module EnvLines {
  import opened Common
  import opened EnvQuoting
  import opened Text

  datatype Pair = Pair(key: string, value: string)

  // ---------- Recognising an assignment ----------

  predicate IsWordStart(c: char) {
    'A' <= c <= 'Z' || 'a' <= c <= 'z' || c == '_'
  }

  predicate IsWordChar(c: char) {
    IsWordStart(c) || '0' <= c <= '9'
  }

  lemma WordCharsExactly(c: char)
    ensures IsWordStart(c) <==> c in {
      'A', 'B', 'C', 'D', 'E', 'F', 'G', 'H', 'I', 'J', 'K', 'L', 'M', 'N', 'O', 'P', 'Q', 'R',
      'S', 'T', 'U', 'V', 'W', 'X', 'Y', 'Z', 'a', 'b', 'c', 'd', 'e', 'f', 'g', 'h', 'i', 'j',
      'k', 'l', 'm', 'n', 'o', 'p', 'q', 'r', 's', 't', 'u', 'v', 'w', 'x', 'y', 'z', '_'}
    ensures IsWordChar(c) <==> IsWordStart(c) || c in {'0', '1', '2', '3', '4', '5', '6', '7', '8', '9'}
  {
  }

  predicate IsKey(key: string) {
    key != [] && IsWordStart(key[0]) && forall i :: 0 <= i < |key| ==> IsWordChar(key[i])
  }

  function WordLength(s: string): (n: nat)
    ensures n <= |s|
    ensures forall i :: 0 <= i < n ==> IsWordChar(s[i])
    ensures n < |s| ==> !IsWordChar(s[n])
  {
    if s != [] && IsWordChar(s[0]) then 1 + WordLength(s[1..]) else 0
  }

  /** `NAME = rest` at the start of the text. */
  function Assignment(s: string): Option<Pair> {
    var n := WordLength(s);
    if n == 0 || !IsWordStart(s[0]) then None
    else
      var t := StripLeft(s[n..]);
      if t != [] && t[0] == '=' then Some(Pair(s[..n], t[1..])) else None
  }

  /** The key a line assigns, with optional leading whitespace and `export`, and the text after `=`. */
  function Parsed(line: string): Option<Pair> {
    var s := StripLeft(line);
    if "export" <= s && |s| > 6 && IsSpace(s[6]) && Assignment(StripLeft(s[6..])).Some?
    then Assignment(StripLeft(s[6..]))
    else Assignment(s)
  }

  predicate Assigns(line: string, key: string) {
    Parsed(line).Some? && Parsed(line).value.key == key
  }

  /** The line that replaces `line`. */
  function Written(line: string, key: string, value: string): string {
    (if "export " <= StripLeft(line) then "export " else "") + key + "=" + Quote(value)
  }

  lemma {:induction false} WordThenOther(key: string, rest: string)
    requires forall i :: 0 <= i < |key| ==> IsWordChar(key[i])
    requires rest != [] && !IsWordChar(rest[0])
    ensures WordLength(key + rest) == |key|
  {
    if key == [] {
      assert key + rest == rest;
    } else {
      assert (key + rest)[1..] == key[1..] + rest;
      WordThenOther(key[1..], rest);
    }
  }

  lemma TakeAndDrop(a: string, b: string)
    ensures (a + b)[..|a|] == a && (a + b)[|a|..] == b
  {
  }

  lemma NothingToStrip(s: string)
    requires s != [] && !IsSpace(s[0])
    ensures StripLeft(s) == s
  {
  }

  // ---------- What is recognised ----------

  lemma SpaceIsNoWord(c: char)
    ensures IsSpace(c) ==> !IsWordChar(c) && c != '=' && c != '#'
  {
  }

  lemma WordFirst(key: string, tail: string)
    requires IsKey(key) && (tail == [] || !IsWordChar(tail[0]))
    ensures WordLength(key + tail) == |key| && (key + tail)[..|key|] == key && (key + tail)[|key|..] == tail
    ensures (key + tail)[0] == key[0] && !IsSpace(key[0])
  {
    hide IsSpace, WordLength;
    SpaceIsNoWord(key[0]);
    TakeAndDrop(key, tail);
    if tail == [] {
      WordAlone(key);
      assert key + tail == key;
    } else {
      WordThenOther(key, tail);
    }
  }

  lemma {:induction false} WordAlone(key: string)
    requires forall i :: 0 <= i < |key| ==> IsWordChar(key[i])
    ensures WordLength(key) == |key|
  {
    if key != [] {
      WordAlone(key[1..]);
    }
  }

  /** `key`, whitespace, `=` and the rest of the line. */
  lemma AssignmentReads(key: string, gap: string, rest: string)
    requires IsKey(key) && AllSpace(gap)
    ensures Assignment(key + (gap + ("=" + rest))) == Some(Pair(key, rest))
  {
    hide IsSpace, WordLength, StripLeft, IsWordChar, IsWordStart;
    var tail := gap + ("=" + rest);
    EqualsIsPlain();
    if gap != [] {
      SpaceIsNoWord(gap[0]);
    }
    WordFirst(key, tail);
    SpaceThenText(gap, "=" + rest);
    TakeAndDrop("=", rest);
    assert IsWordStart(key[0]);
  }

  lemma EqualsIsPlain()
    ensures !IsSpace('=') && !IsWordChar('=') && !IsSpace('#') && !IsWordChar('#')
  {
  }

  /** An assignment is recognised behind any whitespace, with any whitespace before its `=`. */
  lemma PlainAssignmentReads(lead: string, key: string, gap: string, rest: string)
    requires AllSpace(lead) && IsKey(key) && AllSpace(gap)
    ensures Parsed(lead + (key + (gap + ("=" + rest)))) == Some(Pair(key, rest))
  {
    hide IsSpace, WordLength, StripLeft, IsWordChar, IsWordStart, Assignment;
    var s := key + (gap + ("=" + rest));
    AssignmentReads(key, gap, rest);
    FirstIsText(key, gap + ("=" + rest));
    SpaceThenText(lead, s);
    if "export" <= s && |s| > 6 && IsSpace(s[6]) {
      ExportAlone(key, gap, rest);
    }
  }

  lemma FirstIsText(key: string, tail: string)
    requires IsKey(key)
    ensures !IsSpace((key + tail)[0])
  {
    SpaceIsNoWord(key[0]);
  }

  /** A key in front of whitespace that looks like an `export` is the key `export` itself. */
  lemma ExportAlone(key: string, gap: string, rest: string)
    requires IsKey(key) && AllSpace(gap)
    requires var s := key + (gap + ("=" + rest)); "export" <= s && |s| > 6 && IsSpace(s[6])
    ensures Assignment(StripLeft((key + (gap + ("=" + rest)))[6..])) == None
  {
    var s := key + (gap + ("=" + rest));
    hide IsSpace, WordLength, StripLeft;
    EqualsIsPlain();
    SpaceIsNoWord(s[6]);
    assert |key| == 6 by {
      if |key| < 6 {
        assert s[|key|] == "export"[|key|];
        ExportIsWord(|key|);
        if gap != [] {
          SpaceIsNoWord(gap[0]);
        }
      }
    }
    TakeAndDrop(key, gap + ("=" + rest));
    SpaceThenText(gap, "=" + rest);
    NoWordNoAssignment("=" + rest);
  }

  lemma ExportIsWord(i: nat)
    requires i < 6
    ensures IsWordChar("export"[i])
  {
  }

  lemma NoWordNoAssignment(s: string)
    requires s != [] && !IsWordChar(s[0])
    ensures Assignment(s) == None
  {
  }

  /** So it is behind `export` and whitespace. */
  lemma ExportedAssignmentReads(lead: string, space: string, key: string, gap: string, rest: string)
    requires AllSpace(lead) && space != [] && AllSpace(space) && IsKey(key) && AllSpace(gap)
    ensures Parsed(lead + ("export" + (space + (key + (gap + ("=" + rest)))))) == Some(Pair(key, rest))
  {
    hide IsSpace, WordLength, StripLeft, IsWordChar, IsWordStart, Assignment;
    var t := key + (gap + ("=" + rest));
    var s := "export" + (space + t);
    AssignmentReads(key, gap, rest);
    FirstIsText(key, gap + ("=" + rest));
    EIsText();
    SpaceThenText(lead, s);
    SpaceThenText(space, t);
    TakeAndDrop("export", space + t);
    assert s[6] == space[0];
  }

  lemma EIsText()
    ensures !IsSpace("export"[0])
  {
  }

  /** And nothing else is: a recognised line has one of the two forms. */
  lemma AssignmentHasForm(s: string) returns (gap: string)
    requires Assignment(s).Some?
    ensures var p := Assignment(s).value; AllSpace(gap) && IsKey(p.key) && s == p.key + (gap + ("=" + p.value))
  {
    hide IsSpace, StripLeft, IsWordStart;
    var n := WordLength(s);
    hide WordLength, IsWordChar;
    var t := StripLeft(s[n..]);
    gap := s[n..][..|s[n..]| - |t|];
    assert s[n..] == gap + t && t == "=" + t[1..];
    assert s == s[..n] + s[n..];
  }

  lemma SpaceInFront(s: string) returns (space: string)
    ensures AllSpace(space) && s == space + StripLeft(s)
  {
    hide IsSpace, StripLeft;
    space := s[..|s| - |StripLeft(s)|];
  }

  lemma ExportInFront(s: string) returns (prefix: string)
    requires "export" <= s && |s| > 6 && IsSpace(s[6])
    ensures s == prefix + StripLeft(s[6..]) && "export" <= prefix && |prefix| > 6 && AllSpace(prefix[6..])
  {
    hide IsSpace, StripLeft;
    var space := SpaceInFront(s[6..]);
    prefix := "export" + space;
    assert s == s[..6] + s[6..];
    assert prefix[6..] == space;
  }

  lemma ParsedHasForm(line: string) returns (lead: string, prefix: string, gap: string)
    requires Parsed(line).Some?
    ensures var p := Parsed(line).value;
      && AllSpace(lead) && AllSpace(gap) && IsKey(p.key)
      && (prefix == "" || ("export" <= prefix && |prefix| > 6 && AllSpace(prefix[6..])))
      && line == lead + (prefix + (p.key + (gap + ("=" + p.value))))
  {
    hide IsSpace, StripLeft, Assignment, AllSpace, IsKey;
    var s := StripLeft(line);
    lead := SpaceInFront(line);
    prefix := "";
    var t := s;
    if "export" <= s && |s| > 6 && IsSpace(s[6]) && Assignment(StripLeft(s[6..])).Some? {
      prefix := ExportInFront(s);
      t := StripLeft(s[6..]);
    }
    gap := AssignmentHasForm(t);
    assert "" + s == s;
  }

  lemma AssignmentOfKey(key: string, rest: string)
    requires IsKey(key)
    ensures Assignment(key + "=" + rest) == Some(Pair(key, rest))
  {
    hide WordLength, StripLeft;
    var tail := "=" + rest;
    var s := key + tail;
    assert key + "=" + rest == s;
    WordThenOther(key, tail);
    TakeAndDrop(key, tail);
    NothingToStrip(tail);
    TakeAndDrop("=", rest);
    assert s[0] == key[0];
  }

  lemma KeyIsNotExport(key: string, rest: string)
    requires IsKey(key)
    ensures var s := key + "=" + rest; !("export" <= s && |s| > 6 && IsSpace(s[6]))
  {
    var s := key + "=" + rest;
    if |key| > 6 {
      assert s[6] == key[6] && IsWordChar(key[6]);
    } else if |key| == 6 {
      assert s[6] == '=';
    } else {
      assert s[|key|] == '=' && "export"[|key|] != '=';
    }
  }

  lemma WrittenAssigns(line: string, key: string, value: string)
    requires IsKey(key)
    ensures Parsed(Written(line, key, value)) == Some(Pair(key, Quote(value)))
  {
    hide Quote, Assignment, WordLength, StripLeft;
    var bare := key + "=" + Quote(value);
    AssignmentOfKey(key, Quote(value));
    assert bare[0] == key[0];
    NothingToStrip(bare);
    if "export " <= StripLeft(line) {
      ExportedParses(bare);
      assert Written(line, key, value) == "export " + bare;
    } else {
      assert Written(line, key, value) == bare;
      KeyIsNotExport(key, Quote(value));
    }
  }

  /** Rewriting keeps an `export` that is followed by a space, and adds none. */
  lemma ExportKept(line: string, key: string, value: string)
    requires IsKey(key)
    ensures "export " <= Written(line, key, value) <==> "export " <= StripLeft(line)
  {
    hide Quote, StripLeft;
    var bare := key + "=" + Quote(value);
    KeyIsNotExport(key, Quote(value));
    if "export " <= StripLeft(line) {
      assert Written(line, key, value) == "export " + bare;
    } else {
      assert Written(line, key, value) == bare;
      assert IsSpace("export "[6]);
    }
  }

  lemma ExportedParses(bare: string)
    requires bare != [] && !IsSpace(bare[0]) && Assignment(bare).Some?
    ensures Parsed("export " + bare) == Assignment(bare)
  {
    hide Assignment;
    var w := "export " + bare;
    NothingToStrip(w);
    NothingToStrip(bare);
    TakeAndDrop("export", " " + bare);
    assert w == "export" + (" " + bare);
    TakeAndDrop(" ", bare);
    assert StripLeft(" " + bare) == StripLeft(bare);
  }

  // ---------- The rewrite ----------

  function Lookup(pairs: seq<Pair>, key: string): Option<string> {
    if pairs == [] then None
    else if pairs[0].key == key then Some(pairs[0].value)
    else Lookup(pairs[1..], key)
  }

  function Without(pairs: seq<Pair>, key: string): seq<Pair> {
    if pairs == [] then []
    else if pairs[0].key == key then Without(pairs[1..], key)
    else [pairs[0]] + Without(pairs[1..], key)
  }

  predicate KeysAreWords(pairs: seq<Pair>) {
    forall i :: 0 <= i < |pairs| ==> IsKey(pairs[i].key)
  }

  predicate KeysDistinct(pairs: seq<Pair>) {
    forall i, j :: 0 <= i < j < |pairs| ==> pairs[i].key != pairs[j].key
  }

  predicate Updates(line: string, remaining: seq<Pair>) {
    Parsed(line).Some? && Lookup(remaining, Parsed(line).value.key).Some?
  }

  function LineAfter(line: string, remaining: seq<Pair>): string {
    if Updates(line, remaining)
    then Written(line, Parsed(line).value.key, Lookup(remaining, Parsed(line).value.key).value)
    else line
  }

  function RemainingAfter(line: string, remaining: seq<Pair>): seq<Pair> {
    if Updates(line, remaining) then Without(remaining, Parsed(line).value.key) else remaining
  }

  function RewrittenLines(lines: seq<string>, remaining: seq<Pair>): (r: seq<string>)
    ensures |r| == |lines|
  {
    if lines == [] then []
    else [LineAfter(lines[0], remaining)] + RewrittenLines(lines[1..], RemainingAfter(lines[0], remaining))
  }

  function LeftOver(lines: seq<string>, remaining: seq<Pair>): seq<Pair> {
    if lines == [] then remaining else LeftOver(lines[1..], RemainingAfter(lines[0], remaining))
  }

  function AsLines(pairs: seq<Pair>): seq<string> {
    if pairs == [] then [] else [Written("", pairs[0].key, pairs[0].value)] + AsLines(pairs[1..])
  }

  function Separator(lines: seq<string>): seq<string> {
    if lines != [] && Strip(lines[|lines| - 1]) != [] then [""] else []
  }

  /** The lines after the write. */
  function Updated(lines: seq<string>, values: seq<Pair>): seq<string> {
    var rewritten, left := RewrittenLines(lines, values), LeftOver(lines, values);
    if left == [] then rewritten else rewritten + Separator(rewritten) + AsLines(left)
  }

  lemma {:induction false} RewriteSplits(done: seq<string>, rest: seq<string>, remaining: seq<Pair>)
    ensures RewrittenLines(done + rest, remaining)
         == RewrittenLines(done, remaining) + RewrittenLines(rest, LeftOver(done, remaining))
    ensures LeftOver(done + rest, remaining) == LeftOver(rest, LeftOver(done, remaining))
  {
    if done == [] {
      assert done + rest == rest;
    } else {
      assert (done + rest)[1..] == done[1..] + rest;
      RewriteSplits(done[1..], rest, RemainingAfter(done[0], remaining));
    }
  }

  lemma OneMoreLine(done: seq<string>, line: string, remaining: seq<Pair>)
    ensures RewrittenLines(done + [line], remaining)
         == RewrittenLines(done, remaining) + [LineAfter(line, LeftOver(done, remaining))]
    ensures LeftOver(done + [line], remaining) == RemainingAfter(line, LeftOver(done, remaining))
  {
    RewriteSplits(done, [line], remaining);
    var left := LeftOver(done, remaining);
    assert [line][1..] == [];
    assert RewrittenLines([], RemainingAfter(line, left)) == [];
  }

  /** The loop of `_persist_in_place`: rewrites the first line of each key as it meets it, popping the
      pair, and appends what is left after a separating blank line. */
  method UpdateLines(lines: seq<string>, values: seq<Pair>) returns (updated: seq<string>)
    ensures updated == Updated(lines, values)
  {
    hide Parsed, Written, Without, Lookup, Strip;
    var remaining := values;
    updated := [];
    for i := 0 to |lines|
      invariant updated == RewrittenLines(lines[..i], values)
      invariant remaining == LeftOver(lines[..i], values)
    {
      var line := lines[i];
      assert lines[..i + 1] == lines[..i] + [line];
      OneMoreLine(lines[..i], line, values);
      var parsed := Parsed(line);
      if parsed.Some? && Lookup(remaining, parsed.value.key).Some? {
        var key := parsed.value.key;
        updated := updated + [Written(line, key, Lookup(remaining, key).value)];
        remaining := Without(remaining, key);
      } else {
        updated := updated + [line];
      }
    }
    assert lines[..|lines|] == lines;
    hide RewrittenLines, LeftOver;
    if remaining != [] {
      if updated != [] && Strip(updated[|updated| - 1]) != [] {
        updated := updated + [""];
      }
      updated := updated + AsLines(remaining);
    }
  }

  // ---------- Reading back ----------

  /** A key alone, up to a comment or the end of the line. */
  function KeyAlone(s: string): Option<string> {
    var n := WordLength(s);
    if n == 0 || !IsWordStart(s[0]) then None
    else
      var t := StripLeft(s[n..]);
      if t == [] || t[0] == '#' then Some(s[..n]) else None
  }

  /** The key that a line names without assigning it; for the reader such a line takes earlier assignments
      of the key back. */
  function Named(line: string): (key: Option<string>)
    ensures Parsed(line).Some? ==> key == None
  {
    var s := StripLeft(line);
    if Parsed(line).Some? then None
    else if "export" <= s && |s| > 6 && IsSpace(s[6]) then KeyAlone(StripLeft(s[6..]))
    else KeyAlone(s)
  }

  /** A key alone on its line, but for whitespace and a comment, is named. */
  lemma NamedReads(lead: string, key: string, gap: string, comment: string)
    requires AllSpace(lead) && IsKey(key) && key != "export" && AllSpace(gap) && (comment == [] || comment[0] == '#')
    ensures Named(lead + (key + (gap + comment))) == Some(key)
  {
    hide IsSpace, WordLength, StripLeft, IsWordChar, IsWordStart, Assignment, KeyAlone;
    var s := key + (gap + comment);
    FirstIsText(key, gap + comment);
    SpaceThenText(lead, s);
    KeyAloneReads(key, gap, comment);
    NotExportAlone(key, gap, comment);
  }

  lemma KeyAloneReads(key: string, gap: string, comment: string)
    requires IsKey(key) && AllSpace(gap) && (comment == [] || comment[0] == '#')
    ensures KeyAlone(key + (gap + comment)) == Some(key) && Assignment(key + (gap + comment)) == None
  {
    hide IsSpace, WordLength, StripLeft, IsWordChar, IsWordStart;
    var tail := gap + comment;
    EqualsIsPlain();
    if gap != [] {
      SpaceIsNoWord(gap[0]);
    }
    WordFirst(key, tail);
    SpaceThenText(gap, comment);
    assert IsWordStart(key[0]);
  }

  lemma NotExportAlone(key: string, gap: string, comment: string)
    requires IsKey(key) && key != "export" && AllSpace(gap) && (comment == [] || comment[0] == '#')
    ensures var s := key + (gap + comment); !("export" <= s && |s| > 6 && IsSpace(s[6]))
  {
    hide IsSpace;
    var s := key + (gap + comment);
    if "export" <= s && |s| > 6 && IsSpace(s[6]) {
      SpaceIsNoWord(s[6]);
      EqualsIsPlain();
      if |key| < 6 {
        assert s[|key|] == "export"[|key|];
        ExportIsWord(|key|);
        if gap != [] {
          SpaceIsNoWord(gap[0]);
        }
      } else if |key| == 6 {
        TakeAndDrop(key, gap + comment);
      }
    }
  }

  /** How many lines assign a key. */
  function Count(lines: seq<string>, key: string): nat {
    if lines == [] then 0 else (if Assigns(lines[0], key) then 1 else 0) + Count(lines[1..], key)
  }

  predicate Speaks(line: string, key: string) {
    Assigns(line, key) || Named(line) == Some(key)
  }

  predicate Mentioned(lines: seq<string>, key: string) {
    lines != [] && (Speaks(lines[0], key) || Mentioned(lines[1..], key))
  }

  /** What the lines say about a key: the last line that assigns or names it decides. */
  function Reads(lines: seq<string>, key: string): Option<string> {
    if lines == [] then None
    else if Mentioned(lines[1..], key) then Reads(lines[1..], key)
    else if Assigns(lines[0], key) then Some(Unquote(Parsed(lines[0]).value.value))
    else None
  }

  lemma {:induction false} ReadsAppended(a: seq<string>, b: seq<string>, key: string)
    ensures Mentioned(a + b, key) <==> Mentioned(a, key) || Mentioned(b, key)
    ensures Reads(a + b, key) == if Mentioned(b, key) then Reads(b, key) else Reads(a, key)
  {
    if a == [] {
      assert a + b == b;
      Unmentioned(b, key);
    } else {
      assert (a + b)[1..] == a[1..] + b;
      ReadsAppended(a[1..], b, key);
    }
  }

  lemma {:induction false} Unmentioned(lines: seq<string>, key: string)
    ensures !Mentioned(lines, key) ==> Count(lines, key) == 0 && Reads(lines, key) == None
    ensures Reads(lines, key).Some? ==> Count(lines, key) > 0
  {
    if lines != [] {
      Unmentioned(lines[1..], key);
    }
  }

  lemma {:induction false} LookupWithout(pairs: seq<Pair>, gone: string, key: string)
    ensures Lookup(Without(pairs, gone), key) == if key == gone then None else Lookup(pairs, key)
  {
    if pairs != [] {
      LookupWithout(pairs[1..], gone, key);
      var rest := Without(pairs[1..], gone);
      assert pairs[0].key != gone ==> Without(pairs, gone)[1..] == rest;
    }
  }

  lemma {:induction false} WithoutKeeps(pairs: seq<Pair>, gone: string)
    ensures KeysAreWords(pairs) ==> KeysAreWords(Without(pairs, gone))
    ensures KeysDistinct(pairs) ==> KeysDistinct(Without(pairs, gone))
    ensures forall p :: p in Without(pairs, gone) <==> p in pairs && p.key != gone
  {
    hide IsKey;
    if pairs != [] {
      WithoutKeeps(pairs[1..], gone);
      assert pairs == [pairs[0]] + pairs[1..];
    }
  }

  /** What rewriting one line does to what the line says. */
  lemma LineAfterAssigns(line: string, remaining: seq<Pair>, key: string)
    requires KeysAreWords(remaining)
    ensures Assigns(LineAfter(line, remaining), key) <==> Assigns(line, key)
    ensures Speaks(LineAfter(line, remaining), key) <==> Speaks(line, key)
    ensures Assigns(line, key) ==> (
      Parsed(LineAfter(line, remaining)).value.value
        == (if Lookup(remaining, key).Some? then Quote(Lookup(remaining, key).value) else Parsed(line).value.value))
  {
    if Updates(line, remaining) {
      var k := Parsed(line).value.key;
      LookupFinds(remaining, k);
      WrittenAssigns(line, k, Lookup(remaining, k).value);
    }
  }

  lemma {:induction false} LookupFinds(pairs: seq<Pair>, key: string)
    ensures Lookup(pairs, key).Some? <==> exists i :: 0 <= i < |pairs| && pairs[i].key == key
  {
    if pairs != [] {
      LookupFinds(pairs[1..], key);
      if Lookup(pairs[1..], key).Some? {
        var i :| 0 <= i < |pairs[1..]| && pairs[1..][i].key == key;
        assert pairs[i + 1].key == key;
      }
      if i :| 0 <= i < |pairs| && pairs[i].key == key {
        assert i > 0 ==> pairs[1..][i - 1].key == key;
      }
    }
  }

  /** An updated key reads as the update if the only line that assigns it is also the last to speak of it. */
  predicate OnlyLineDecides(lines: seq<string>, key: string) {
    Count(lines, key) == 1 && Reads(lines, key).Some?
  }

  /** The rewritten lines alone: a key updated on its only line reads as the update unless a later line takes
      it back; with no line it is left over; on several lines only the first changes, so the last still
      decides. */
  lemma {:induction false} RewrittenReads(lines: seq<string>, remaining: seq<Pair>, key: string)
    requires KeysAreWords(remaining)
    ensures Mentioned(RewrittenLines(lines, remaining), key) <==> Mentioned(lines, key)
    ensures Reads(RewrittenLines(lines, remaining), key) ==
      (if Lookup(remaining, key).Some? && OnlyLineDecides(lines, key) then Some(Unquote(Quote(Lookup(remaining, key).value)))
       else Reads(lines, key))
    ensures Lookup(LeftOver(lines, remaining), key) ==
      if Count(lines, key) == 0 then Lookup(remaining, key) else None
  {
    hide Unquote, Quote, Parsed, Written, Named;
    if lines != [] {
      var line := lines[0];
      var after := RemainingAfter(line, remaining);
      LineAfterAssigns(line, remaining, key);
      if Updates(line, remaining) {
        WithoutKeeps(remaining, Parsed(line).value.key);
        LookupWithout(remaining, Parsed(line).value.key, key);
      }
      hide Without;
      RewrittenReads(lines[1..], after, key);
      Unmentioned(lines[1..], key);
      var r := RewrittenLines(lines, remaining);
      assert r[0] == LineAfter(line, remaining) && r[1..] == RewrittenLines(lines[1..], after);
    }
  }

  lemma {:induction false} LeftOverKeeps(lines: seq<string>, remaining: seq<Pair>)
    requires KeysAreWords(remaining) && KeysDistinct(remaining)
    ensures KeysAreWords(LeftOver(lines, remaining)) && KeysDistinct(LeftOver(lines, remaining))
    ensures forall p :: p in LeftOver(lines, remaining) ==> p in remaining
  {
    if lines != [] {
      if Updates(lines[0], remaining) {
        WithoutKeeps(remaining, Parsed(lines[0]).value.key);
      }
      LeftOverKeeps(lines[1..], RemainingAfter(lines[0], remaining));
    }
  }

  lemma {:induction false} AppendedReads(pairs: seq<Pair>, key: string)
    requires KeysAreWords(pairs) && KeysDistinct(pairs)
    ensures Mentioned(AsLines(pairs), key) <==> Lookup(pairs, key).Some?
    ensures Reads(AsLines(pairs), key) ==
      if Lookup(pairs, key).Some? then Some(Unquote(Quote(Lookup(pairs, key).value))) else None
  {
    hide Unquote, Quote, Parsed, Written;
    if pairs != [] {
      AppendedReads(pairs[1..], key);
      WrittenAssigns("", pairs[0].key, pairs[0].value);
      LookupFinds(pairs[1..], key);
      var r := AsLines(pairs);
      assert r[1..] == AsLines(pairs[1..]);
    }
  }

  lemma BlankReadsNothing(key: string)
    ensures !Mentioned([""], key) && !Mentioned([], key) && Reads([], key) == None
  {
    assert StripLeft("") == "";
    assert Parsed("") == None && Named("") == None;
    assert [""][1..] == [];
  }

  /** The new value of a key is what the file reads as: no line assigned it, or just one did and no later line
      takes it back. */
  predicate TakesOver(lines: seq<string>, key: string) {
    Count(lines, key) == 0 || OnlyLineDecides(lines, key)
  }

  /** Writing then reading. A key without an update reads as before. An updated key reads as the value
      written if the new value takes over, and as before the write if not. */
  lemma UpdatedReads(lines: seq<string>, values: seq<Pair>, key: string)
    requires KeysAreWords(values) && KeysDistinct(values)
    ensures Reads(Updated(lines, values), key) ==
      (if Lookup(values, key).Some? && TakesOver(lines, key) then Some(Unquote(Quote(Lookup(values, key).value)))
       else Reads(lines, key))
  {
    hide Unquote, Quote, Parsed, Written, Strip, Named;
    var rewritten, left := RewrittenLines(lines, values), LeftOver(lines, values);
    RewrittenReads(lines, values, key);
    LeftOverKeeps(lines, values);
    AppendedReads(left, key);
    BlankReadsNothing(key);
    ReadsAppended(rewritten, Separator(rewritten), key);
    ReadsAppended(rewritten + Separator(rewritten), AsLines(left), key);
  }

  /** An updated key reads back as its value exactly when no line assigned it, or just one did and no later
      line takes it back, or the lines already said so (for a value that its quoting preserves). */
  lemma UpdateTakesEffect(lines: seq<string>, values: seq<Pair>, i: nat)
    requires KeysAreWords(values) && KeysDistinct(values) && i < |values|
    requires Unquote(Quote(values[i].value)) == values[i].value
    ensures Reads(Updated(lines, values), values[i].key) == Some(values[i].value) <==>
      TakesOver(lines, values[i].key) || Reads(lines, values[i].key) == Some(values[i].value)
  {
    hide Unquote, Quote;
    LookupAt(values, i);
    UpdatedReads(lines, values, values[i].key);
  }

  lemma {:induction false} LookupAt(pairs: seq<Pair>, i: nat)
    requires KeysDistinct(pairs) && i < |pairs|
    ensures Lookup(pairs, pairs[i].key) == Some(pairs[i].value)
  {
    if i > 0 {
      assert pairs[1..][i - 1] == pairs[i];
      LookupAt(pairs[1..], i - 1);
    }
  }

  predicate FirstUpdated(lines: seq<string>, values: seq<Pair>, i: nat)
    requires i < |lines|
  {
    Updates(lines[i], values) && Count(lines[..i], Parsed(lines[i]).value.key) == 0
  }

  /** Line by line: the first line that assigns an updated key is replaced; every other line stays
      verbatim and in place; the appended lines all come after them. */
  lemma OtherLinesStay(lines: seq<string>, values: seq<Pair>)
    ensures |lines| <= |Updated(lines, values)|
    ensures forall i :: 0 <= i < |lines| ==>
      Updated(lines, values)[i] == if FirstUpdated(lines, values, i) then LineAfter(lines[i], values) else lines[i]
  {
    forall i | 0 <= i < |lines|
      ensures RewrittenLines(lines, values)[i] == if FirstUpdated(lines, values, i) then LineAfter(lines[i], values) else lines[i]
    {
      LinesStay(lines, values, i);
    }
  }

  lemma LeftOverIsUnassigned(lines: seq<string>, values: seq<Pair>, k: nat)
    requires KeysAreWords(values) && KeysDistinct(values) && k < |LeftOver(lines, values)|
    ensures var p := LeftOver(lines, values)[k]; p in values && Count(lines, p.key) == 0
  {
    hide Count, RewrittenLines, LeftOver;
    var left := LeftOver(lines, values);
    LeftOverKeeps(lines, values);
    LookupAt(left, k);
    RewrittenReads(lines, values, left[k].key);
    assert left[k] in left;
  }

  /** Appended is, after at most one blank line, one assignment for each update that no line had. */
  lemma AppendedLines(lines: seq<string>, values: seq<Pair>, i: nat)
    requires KeysAreWords(values) && KeysDistinct(values)
    requires |lines| <= i < |Updated(lines, values)|
    ensures (i == |lines| && Updated(lines, values)[i] == "") ||
      exists p :: p in values && Count(lines, p.key) == 0 && Updated(lines, values)[i] == Written("", p.key, p.value)
  {
    hide Written, Count, Strip, RewrittenLines, LeftOver, AsLines;
    var rewritten, left := RewrittenLines(lines, values), LeftOver(lines, values);
    var separated := |rewritten| + |Separator(rewritten)|;
    AsLinesAt(left);
    if left != [] && i >= separated {
      LeftOverIsUnassigned(lines, values, i - separated);
      var p := left[i - separated];
      assert Updated(lines, values)[i] == Written("", p.key, p.value);
    }
  }

  lemma {:induction false} AsLinesAt(pairs: seq<Pair>)
    ensures |AsLines(pairs)| == |pairs|
    ensures forall i :: 0 <= i < |pairs| ==> AsLines(pairs)[i] == Written("", pairs[i].key, pairs[i].value)
  {
    hide Written;
    if pairs != [] {
      AsLinesAt(pairs[1..]);
    }
  }

  lemma {:induction false} LinesStay(lines: seq<string>, remaining: seq<Pair>, i: nat)
    requires i < |lines|
    ensures RewrittenLines(lines, remaining)[i] ==
      if FirstUpdated(lines, remaining, i) then LineAfter(lines[i], remaining) else lines[i]
  {
    hide Parsed, Written;
    if i == 0 {
      assert lines[..0] == [];
    } else {
      var after := RemainingAfter(lines[0], remaining);
      LinesStay(lines[1..], after, i - 1);
      assert lines[1..][..i - 1] == lines[..i][1..];
      assert lines[1..][i - 1] == lines[i];
      if Parsed(lines[i]).Some? && Updates(lines[0], remaining) {
        LookupWithout(remaining, Parsed(lines[0]).value.key, Parsed(lines[i]).value.key);
      }
    }
  }
}
