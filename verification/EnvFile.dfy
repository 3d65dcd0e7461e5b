/** The `.env` file as text: line splitting, the written text, its line endings, and the whole write of
    artpm_agent/api/config_admin.py. */
module EnvFile {
  import opened Common
  import opened EnvLines
  import opened EnvQuoting
  import opened Text

  // ---------- Lines of a text ----------

  /** Length of the line break at the start of a text. */
  function BreakLength(s: string): (n: nat)
    requires s != [] && IsBreak(s[0])
    ensures 1 <= n <= |s|
  {
    if s[0] == '\r' && |s| > 1 && s[1] == '\n' then 2 else 1
  }

  /** `str.splitlines`. */
  function Lines(s: string): (lines: seq<string>)
    ensures forall i :: 0 <= i < |lines| ==> OneLine(lines[i])
    decreases |s|
  {
    if s == [] then []
    else if IsBreak(s[0]) then [[]] + Lines(s[BreakLength(s)..])
    else
      var rest := Lines(s[1..]);
      if rest == [] then [[s[0]]] else [[s[0]] + rest[0]] + rest[1..]
  }

  function Join(lines: seq<string>): string {
    if lines == [] then []
    else if |lines| == 1 then lines[0]
    else lines[0] + "\n" + Join(lines[1..])
  }

  /** The text written for some lines: joined, with a final line break if there is any text. */
  function Output(lines: seq<string>): string {
    var text := Join(lines);
    if text != [] && text[|text| - 1] != '\n' then text + "\n" else text
  }

  function DropOneBlank(lines: seq<string>): seq<string> {
    if lines != [] && lines[|lines| - 1] == [] then lines[..|lines| - 1] else lines
  }

  predicate OneLineEach(lines: seq<string>) {
    forall i :: 0 <= i < |lines| ==> OneLine(lines[i])
  }

  /** A whole line break in front of `rest`: one breaking character, or both of `\r\n`. */
  predicate BreaksBefore(b: string, rest: string) {
    b == "\r\n" || (|b| == 1 && IsBreak(b[0]) && (b[0] == '\r' && rest != [] ==> rest[0] != '\n'))
  }

  /** The first line ends at the first break. */
  lemma {:induction false} FirstLine(line: string, b: string, rest: string)
    requires OneLine(line) && BreaksBefore(b, rest)
    ensures Lines(line + b + rest) == [line] + Lines(rest)
    decreases |line|
  {
    var s := line + b + rest;
    if line == [] {
      assert s[|b|..] == rest;
    } else {
      assert s[1..] == line[1..] + b + rest;
      FirstLine(line[1..], b, rest);
      assert s[0] == line[0] && line[0] in line;
      assert [line[0]] + line[1..] == line;
    }
  }

  lemma LineThenRest(line: string, rest: string)
    requires OneLine(line)
    ensures Lines(line + "\n" + rest) == [line] + Lines(rest)
  {
    FirstLine(line, "\n", rest);
  }

  lemma {:induction false} LastLine(line: string)
    requires OneLine(line)
    ensures Lines(line) == if line == [] then [] else [line]
    decreases |line|
  {
    if line != [] {
      LastLine(line[1..]);
      assert line[0] in line;
      assert [line[0]] + line[1..] == line;
      if |line| == 1 {
        assert line == [line[0]];
      } else {
        assert [[line[0]] + line[1..]] + [line[1..]][1..] == [line];
      }
    }
  }

  lemma NoLines()
    ensures Lines([]) == []
  {
  }

  lemma {:induction false} LinesOfJoin(lines: seq<string>)
    requires OneLineEach(lines)
    ensures Lines(Join(lines)) == DropOneBlank(lines)
    decreases |lines|
  {
    hide Lines, OneLine;
    NoLines();
    if |lines| == 1 {
      LastLine(lines[0]);
    } else if |lines| > 1 {
      LineThenRest(lines[0], Join(lines[1..]));
      LinesOfJoin(lines[1..]);
      assert [lines[0]] + DropOneBlank(lines[1..]) == DropOneBlank(lines);
    }
  }

  lemma {:induction false} JoinEnds(lines: seq<string>)
    requires OneLineEach(lines)
    ensures Join(lines) != [] && Join(lines)[|Join(lines)| - 1] == '\n' <==> |lines| > 1 && lines[|lines| - 1] == []
    ensures Join(lines) == [] <==> lines == [] || lines == [[]]
    decreases |lines|
  {
    if |lines| == 1 {
      assert lines == [lines[0]];
      if lines[0] != [] {
        assert lines[0][|lines[0]| - 1] in lines[0];
      }
    } else if |lines| > 1 {
      JoinEnds(lines[1..]);
      var rest := Join(lines[1..]);
      assert Join(lines) == (lines[0] + "\n") + rest;
      assert rest == [] ==> Join(lines)[|Join(lines)| - 1] == '\n';
    }
  }

  lemma {:induction false} AppendBreak(lines: seq<string>)
    requires lines != []
    ensures Join(lines) + "\n" == Join(lines + [[]])
    decreases |lines|
  {
    if |lines| == 1 {
      assert lines + [[]] == [lines[0], []];
      assert [lines[0], []][1..] == [[]];
    } else {
      AppendBreak(lines[1..]);
      assert (lines + [[]])[1..] == lines[1..] + [[]];
      assert lines[0] + "\n" + Join(lines[1..]) + "\n" == lines[0] + "\n" + (Join(lines[1..]) + "\n");
    }
  }

  /** Splitting what was written gives the written lines, less one blank line at the end. */
  lemma LinesOfOutput(lines: seq<string>)
    requires OneLineEach(lines)
    ensures Lines(Output(lines)) == DropOneBlank(lines)
  {
    LinesOfJoin(lines);
    JoinEnds(lines);
    if Output(lines) != Join(lines) {
      AppendBreak(lines);
      LinesOfJoin(lines + [[]]);
      assert DropOneBlank(lines + [[]]) == lines;
    }
  }

  // ---------- Line endings ----------

  predicate HasCrLf(raw: string) {
    exists i :: 0 <= i < |raw| - 1 && raw[i] == '\r' && raw[i + 1] == '\n'
  }

  /** Every `\r\n` and every other `\r` becomes `\n`: what text-mode reading does, and the first step of
      `_restore_newlines`. */
  function Universal(raw: string): (s: string)
    ensures '\r' !in s
    decreases |raw|
  {
    if raw == [] then []
    else if raw[0] == '\r' then "\n" + Universal(if |raw| > 1 && raw[1] == '\n' then raw[2..] else raw[1..])
    else [raw[0]] + Universal(raw[1..])
  }

  function ToCrLf(s: string): string {
    if s == [] then []
    else (if s[0] == '\n' then "\r\n" else [s[0]]) + ToCrLf(s[1..])
  }

  function Restored(raw: string, crLf: bool): string {
    if crLf then ToCrLf(Universal(raw)) else Universal(raw)
  }

  predicate RightEnding(raw: string, i: nat, crLf: bool)
    requires i < |raw|
  {
    if crLf then (raw[i] == '\n' <==> i > 0 && raw[i - 1] == '\r') && (raw[i] == '\r' ==> i + 1 < |raw|)
    else raw[i] != '\r'
  }

  /** Every line ending is of the one kind. */
  predicate OnlyEndings(raw: string, crLf: bool) {
    forall i :: 0 <= i < |raw| ==> RightEnding(raw, i, crLf)
  }

  lemma {:induction false} ToCrLfEndings(s: string)
    requires '\r' !in s
    ensures OnlyEndings(ToCrLf(s), true)
    ensures Universal(ToCrLf(s)) == s
  {
    if s != [] {
      ToCrLfEndings(s[1..]);
      var rest := ToCrLf(s[1..]);
      var r := ToCrLf(s);
      assert s == [s[0]] + s[1..];
      assert s[0] in s;
      var n := if s[0] == '\n' then 2 else 1;
      assert r[n..] == rest;
      forall i | 0 <= i < |r| ensures RightEnding(r, i, true) {
        if i >= n {
          assert RightEnding(rest, i - n, true);
          assert r[i] == rest[i - n];
          assert i > n ==> r[i - 1] == rest[i - n - 1];
        }
      }
    }
  }

  lemma {:induction false} UniversalIdentity(s: string)
    requires '\r' !in s
    ensures Universal(s) == s
  {
    if s != [] {
      assert s[0] in s;
      UniversalIdentity(s[1..]);
      assert s == [s[0]] + s[1..];
    }
  }

  /** The rewritten file uses only the line ending found before the write, and reads as the text that
      was written. */
  lemma RestoredEndings(text: string, crLf: bool)
    requires '\r' !in text
    ensures OnlyEndings(Restored(text, crLf), crLf)
    ensures Universal(Restored(text, crLf)) == text
  {
    UniversalIdentity(text);
    if crLf {
      ToCrLfEndings(text);
    }
  }

  /** Which ending is detected: the one the file uses, if it has a line break and only one kind of them. */
  lemma DetectsUsedEnding(raw: string, crLf: bool)
    requires OnlyEndings(raw, crLf) && '\n' in raw
    ensures HasCrLf(raw) == crLf
  {
    if crLf {
      var i: int :| 0 <= i < |raw| && raw[i] == '\n';
      assert RightEnding(raw, i, true);
      var j := i - 1;
      assert raw[j] == '\r' && raw[j + 1] == '\n';
    } else {
      forall i | 0 <= i < |raw| ensures raw[i] != '\r' {
        assert RightEnding(raw, i, false);
      }
    }
  }

  // ---------- The whole write ----------

  /** The file the in-place writer makes of `raw`, with its line endings restored. */
  function InPlace(raw: string, values: seq<Pair>, crLf: bool): string {
    Restored(Output(Updated(Lines(Universal(raw)), values)), crLf)
  }

  /** What the file says about a key. */
  function FileReads(raw: string, key: string): Option<string> {
    Reads(Lines(Universal(raw)), key)
  }

  /** No value splits its line. */
  predicate StaysOnLine(values: seq<Pair>) {
    forall i :: 0 <= i < |values| ==> forall c :: c in values[i].value ==> !EscapesBreak(c)
  }

  lemma KeyOneLine(key: string)
    requires IsKey(key)
    ensures OneLine(key)
  {
  }

  lemma FixedOneLine()
    ensures OneLine("") && OneLine("=") && OneLine("export ")
  {
  }

  lemma WrittenOneLine(line: string, key: string, value: string)
    requires IsKey(key)
    ensures OneLine(Written(line, key, value)) <==> forall c :: c in value ==> !EscapesBreak(c)
  {
    QuoteOneLine(value);
    KeyOneLine(key);
    hide Quote, StripLeft, OneLine, EscapesBreak, IsKey;
    var prefix := if "export " <= StripLeft(line) then "export " else "";
    OneLineAppend(prefix + key + "=", Quote(value));
    OneLineAppend(prefix + key, "=");
    OneLineAppend(prefix, key);
    FixedOneLine();
  }

  lemma {:induction false} BreakSplits(s: string)
    requires s != [] && !IsBreak(s[|s| - 1])
    ensures |Lines(s)| >= 1
    ensures |Lines(s)| == 1 <==> OneLine(s)
    decreases |s|
  {
    if IsBreak(s[0]) {
      assert s[0] in s;
      var rest := s[BreakLength(s)..];
      if rest != [] {
        BreakSplits(rest);
      }
    } else if |s| > 1 {
      BreakSplits(s[1..]);
      assert s == [s[0]] + s[1..];
    } else {
      assert s == [s[0]];
    }
  }

  /** The condition on values is exact: the line written for a value stays one line if and only if the
      value holds none of the breaks that JSON leaves alone. */
  lemma WrittenStaysOneLine(line: string, key: string, value: string)
    requires IsKey(key)
    ensures |Lines(Written(line, key, value))| == 1 <==> forall c :: c in value ==> !EscapesBreak(c)
  {
    WrittenOneLine(line, key, value);
    var w := Written(line, key, value);
    assert forall c :: IsBreak(c) ==> IsSpace(c);
    assert !IsBreak(w[|w| - 1]) by {
      if Quote(value) == [] {
        assert w[|w| - 1] == '=';
      } else {
        assert w[|w| - 1] == Quote(value)[|Quote(value)| - 1];
      }
    }
    BreakSplits(w);
  }

  lemma {:induction false} RewrittenOneLine(lines: seq<string>, remaining: seq<Pair>)
    requires OneLineEach(lines) && KeysAreWords(remaining) && KeysDistinct(remaining) && StaysOnLine(remaining)
    ensures OneLineEach(RewrittenLines(lines, remaining))
    ensures StaysOnLine(LeftOver(lines, remaining))
  {
    hide OneLine, Written, Parsed, IsKey;
    if lines != [] {
      if Updates(lines[0], remaining) {
        var key := Parsed(lines[0]).value.key;
        LookupFinds(remaining, key);
        var i :| 0 <= i < |remaining| && remaining[i].key == key;
        LookupAt(remaining, i);
        WrittenOneLine(lines[0], key, remaining[i].value);
        WithoutKeeps(remaining, key);
        forall j | 0 <= j < |Without(remaining, key)| ensures forall c :: c in Without(remaining, key)[j].value ==> !EscapesBreak(c) {
          assert Without(remaining, key)[j] in remaining;
        }
      }
      RewrittenOneLine(lines[1..], RemainingAfter(lines[0], remaining));
    }
  }

  lemma {:induction false} AppendedOneLine(pairs: seq<Pair>)
    requires KeysAreWords(pairs) && StaysOnLine(pairs)
    ensures OneLineEach(AsLines(pairs))
  {
    hide OneLine, Written;
    if pairs != [] {
      WrittenOneLine("", pairs[0].key, pairs[0].value);
      AppendedOneLine(pairs[1..]);
    }
  }

  lemma UpdatedOneLine(lines: seq<string>, values: seq<Pair>)
    requires OneLineEach(lines) && KeysAreWords(values) && KeysDistinct(values) && StaysOnLine(values)
    ensures OneLineEach(Updated(lines, values))
  {
    RewrittenOneLine(lines, values);
    LeftOverKeeps(lines, values);
    AppendedOneLine(LeftOver(lines, values));
  }

  lemma OutputHasNoReturn(lines: seq<string>)
    requires OneLineEach(lines)
    ensures '\r' !in Output(lines)
  {
    JoinHasNoReturn(lines);
  }

  lemma {:induction false} JoinHasNoReturn(lines: seq<string>)
    requires OneLineEach(lines)
    ensures '\r' !in Join(lines)
    decreases |lines|
  {
    if |lines| == 1 {
      assert OneLine(lines[0]);
    } else if |lines| > 1 {
      assert OneLine(lines[0]);
      JoinHasNoReturn(lines[1..]);
    }
  }

  lemma BlankEndReadsSame(lines: seq<string>, key: string)
    ensures Reads(DropOneBlank(lines), key) == Reads(lines, key)
  {
    hide Parsed, Named, Unquote;
    if DropOneBlank(lines) != lines {
      BlankReadsNothing(key);
      assert lines == DropOneBlank(lines) + [""];
      ReadsAppended(DropOneBlank(lines), [""], key);
    }
  }

  /** Whatever text is restored, the file then uses only the given line ending. */
  lemma AnyRestoredEndings(text: string, crLf: bool)
    ensures OnlyEndings(Restored(text, crLf), crLf)
  {
    if crLf {
      ToCrLfEndings(Universal(text));
    }
  }

  /** The lines of the file written in place: the updated lines, less one blank line at the end. */
  lemma PersistedLines(raw: string, values: seq<Pair>, crLf: bool)
    requires KeysAreWords(values) && KeysDistinct(values) && StaysOnLine(values)
    ensures Lines(Universal(InPlace(raw, values, crLf))) == DropOneBlank(Updated(Lines(Universal(raw)), values))
    ensures OnlyEndings(InPlace(raw, values, crLf), crLf)
  {
    var lines := Lines(Universal(raw));
    UpdatedOneLine(lines, values);
    var updated := Updated(lines, values);
    OutputHasNoReturn(updated);
    RestoredEndings(Output(updated), crLf);
    LinesOfOutput(updated);
  }

  /** From file to file, written in place: a key reads as the value written when that takes over, and as
      before otherwise, at any length of file and batch. */
  lemma PersistThenRead(raw: string, values: seq<Pair>, crLf: bool, key: string)
    requires KeysAreWords(values) && KeysDistinct(values) && StaysOnLine(values)
    ensures FileReads(InPlace(raw, values, crLf), key) ==
      (if Lookup(values, key).Some? && TakesOver(Lines(Universal(raw)), key)
       then Some(Unquote(Quote(Lookup(values, key).value))) else FileReads(raw, key))
  {
    hide Unquote, Quote;
    var lines := Lines(Universal(raw));
    PersistedLines(raw, values, crLf);
    BlankEndReadsSame(Updated(lines, values), key);
    UpdatedReads(lines, values, key);
  }

  // ---------- Applying a batch ----------

  function Value(environ: map<string, string>, key: string): Option<string> {
    if key in environ then Some(environ[key]) else None
  }

  /** What `python-dotenv`'s own writer does with a batch: it finishes, or it raises, and leaves some file
      behind. */
  datatype Dotenv = Finishes(file: string) | Raises(file: string)

  predicate SomeEmpty(values: seq<Pair>) {
    exists i :: 0 <= i < |values| && values[i].value == ""
  }

  /** The batch goes through the in-place writer: some value is empty, or the other writer raised. */
  predicate WritesInPlace(values: seq<Pair>, dotenv: Dotenv) {
    SomeEmpty(values) || dotenv.Raises?
  }

  /** The file the in-place writer starts from. */
  function BeforeInPlace(raw: string, values: seq<Pair>, dotenv: Dotenv): string {
    if SomeEmpty(values) then raw else dotenv.file
  }

  /** Coerces a batch, up to the first value that is refused. */
  method Coerced(updates: seq<Pair>, coerce: Pair -> Result<string, string>) returns (r: Result<seq<Pair>, string>)
    ensures r.Err? <==> exists i :: 0 <= i < |updates| && coerce(updates[i]).Err?
    ensures r.Ok? ==>
      |r.value| == |updates| && forall i :: 0 <= i < |updates| ==> r.value[i] == Pair(updates[i].key, coerce(updates[i]).value)
  {
    var coerced: seq<Pair> := [];
    for i := 0 to |updates|
      invariant |coerced| == i
      invariant forall j :: 0 <= j < i ==> coerce(updates[j]).Ok? && coerced[j] == Pair(updates[j].key, coerce(updates[j]).value)
    {
      var checked := coerce(updates[i]);
      if checked.Err? {
        return Err(checked.error);
      }
      coerced := coerced + [Pair(updates[i].key, checked.value)];
    }
    return Ok(coerced);
  }

  predicate Mentions(values: seq<Pair>, key: string) {
    exists i :: 0 <= i < |values| && values[i].key == key
  }

  /** The process environment and the file behind it. */
  class Host {
    var raw: string
    var environ: map<string, string>

    /** `_persist`: the in-place writer for a batch that clears a value, otherwise `python-dotenv` with the
        in-place writer to fall back on; then the line ending found before is restored. */
    method Persist(values: seq<Pair>, dotenv: Dotenv)
      modifies this`raw
      ensures WritesInPlace(values, dotenv) ==>
        raw == InPlace(BeforeInPlace(old(raw), values, dotenv), values, HasCrLf(old(raw)))
      ensures !WritesInPlace(values, dotenv) ==> raw == Restored(dotenv.file, HasCrLf(old(raw)))
      ensures (exists i :: 0 <= i < |values| && values[i].value == "") ==>
        raw == InPlace(old(raw), values, HasCrLf(old(raw)))
      ensures (forall i :: 0 <= i < |values| ==> values[i].value != "") ==>
        raw == if dotenv.Raises? then InPlace(dotenv.file, values, HasCrLf(old(raw))) else Restored(dotenv.file, HasCrLf(old(raw)))
      ensures OnlyEndings(raw, HasCrLf(old(raw)))
      ensures forall crLf :: OnlyEndings(old(raw), crLf) && '\n' in old(raw) ==> OnlyEndings(raw, crLf)
    {
      var crLf := HasCrLf(raw);
      forall used | OnlyEndings(raw, used) && '\n' in raw ensures used == crLf {
        DetectsUsedEnding(raw, used);
      }
      if SomeEmpty(values) {
        PersistInPlace(values);
      } else {
        raw := dotenv.file;
        if dotenv.Raises? {
          PersistInPlace(values);
        }
      }
      AnyRestoredEndings(raw, crLf);
      raw := Restored(raw, crLf);
    }

    /** `_persist_in_place`. */
    method PersistInPlace(values: seq<Pair>)
      modifies this`raw
      ensures raw == Output(Updated(Lines(Universal(old(raw))), values))
    {
      var updated := UpdateLines(Lines(Universal(raw)), values);
      raw := Output(updated);
    }

    /** Loads the file over the environment: what each line says goes into a dictionary, later lines over
        earlier ones, and then every key with a value is set. */
    method LoadFile()
      modifies this`environ
      ensures forall key :: Value(environ, key) == if FileReads(raw, key).Some? then FileReads(raw, key) else Value(old(environ), key)
    {
      hide EnvLines.Parsed, EnvLines.Named, EnvQuoting.Unquote;
      var lines := Lines(Universal(raw));
      var said: map<string, Option<string>> := map[];
      for i := 0 to |lines|
        invariant environ == old(environ)
        invariant forall key :: key in said <==> Mentioned(lines[..i], key)
        invariant forall key :: key in said ==> said[key] == Reads(lines[..i], key)
      {
        OneMoreRead(lines[..i], lines[i]);
        assert lines[..i] + [lines[i]] == lines[..i + 1];
        if Parsed(lines[i]).Some? {
          said := said[Parsed(lines[i]).value.key := Some(Unquote(Parsed(lines[i]).value.value))];
        } else if Named(lines[i]).Some? {
          said := said[Named(lines[i]).value := None];
        }
      }
      assert lines[..|lines|] == lines;
      Overlay(said);
      forall key
        ensures Value(environ, key) == if FileReads(raw, key).Some? then FileReads(raw, key) else Value(old(environ), key)
      {
        Unmentioned(lines, key);
        assert key in said <==> Mentioned(lines, key);
      }
    }

    /** Sets every key that has a value. */
    method Overlay(said: map<string, Option<string>>)
      modifies this`environ
      ensures forall key :: Value(environ, key) == if key in said && said[key].Some? then said[key] else Value(old(environ), key)
    {
      var rest := said.Keys;
      while rest != {}
        invariant rest <= said.Keys
        invariant forall key ::
          Value(environ, key) == if key in said && key !in rest && said[key].Some? then said[key] else Value(old(environ), key)
        decreases |rest|
      {
        var key :| key in rest;
        if said[key].Some? {
          environ := environ[key := said[key].value];
        }
        rest := rest - {key};
      }
    }

    /** Sets each value in the process, unsets the empty ones and leaves all other variables. */
    method Export(values: seq<Pair>)
      requires KeysDistinct(values)
      modifies this`environ
      ensures forall key :: !Mentions(values, key) ==> Value(environ, key) == Value(old(environ), key)
      ensures forall i :: 0 <= i < |values| ==>
        Value(environ, values[i].key) == if values[i].value == "" then None else Some(values[i].value)
    {
      for i := 0 to |values|
        invariant forall key :: !Mentions(values, key) ==> Value(environ, key) == Value(old(environ), key)
        invariant forall j :: 0 <= j < i ==>
          Value(environ, values[j].key) == if values[j].value == "" then None else Some(values[j].value)
      {
        var pair := values[i];
        environ := if pair.value == "" then environ - {pair.key} else environ[pair.key := pair.value];
      }
    }

    /** Validates, persists and reloads one batch. A refused batch changes nothing. After an accepted one
        the process sees what the new file says, whoever wrote it, and the submitted value of an updated
        key on which the file says nothing. On the in-place branch the file reads as the new value of a key
        exactly if that takes over, and otherwise as before. */
    method ApplyConfig(known: set<string>, updates: seq<Pair>, coerce: Pair -> Result<string, string>, dotenv: Dotenv)
      returns (r: Result<seq<Pair>, string>)
      requires forall key :: key in known ==> IsKey(key)
      requires KeysDistinct(updates)
      modifies this
      ensures r.Err? <==> updates == [] || exists i :: 0 <= i < |updates| && (updates[i].key !in known || coerce(updates[i]).Err?)
      ensures r.Err? ==> raw == old(raw) && environ == old(environ)
      ensures r.Ok? ==>
        |r.value| == |updates| && forall i :: 0 <= i < |updates| ==> r.value[i] == Pair(updates[i].key, coerce(updates[i]).value)
      ensures r.Ok? && WritesInPlace(r.value, dotenv) ==>
        raw == InPlace(BeforeInPlace(old(raw), r.value, dotenv), r.value, HasCrLf(old(raw)))
      ensures r.Ok? && !WritesInPlace(r.value, dotenv) ==> raw == Restored(dotenv.file, HasCrLf(old(raw)))
      ensures r.Ok? ==> forall key :: FileReads(raw, key).Some? ==> Value(environ, key) == FileReads(raw, key)
      ensures r.Ok? ==> forall i :: 0 <= i < |updates| && FileReads(raw, updates[i].key) == None ==>
        Value(environ, updates[i].key) == if r.value[i].value == "" then None else Some(r.value[i].value)
      ensures r.Ok? ==> forall key :: FileReads(raw, key) == None && !Mentions(r.value, key) ==> Value(environ, key) == Value(old(environ), key)
      ensures r.Ok? && WritesInPlace(r.value, dotenv) && StaysOnLine(r.value) ==>
        var base := BeforeInPlace(old(raw), r.value, dotenv);
        forall i :: 0 <= i < |updates| && Readable(r.value[i].value) ==>
          FileReads(raw, updates[i].key) ==
            if TakesOver(Lines(Universal(base)), updates[i].key) then Some(r.value[i].value) else FileReads(base, updates[i].key)
    {
      hide EnvLines.IsKey, EnvLines.Updated, EnvQuoting.Unquote, EnvQuoting.Quote;
      if updates == [] {
        return Err("no configuration values were provided");
      }
      for i := 0 to |updates|
        invariant forall j :: 0 <= j < i ==> updates[j].key in known
      {
        if updates[i].key !in known {
          return Err("unsupported configuration keys");
        }
      }
      var checked := Coerced(updates, coerce);
      if checked.Err? {
        return Err(checked.error);
      }
      var coerced := checked.value;
      Persist(coerced, dotenv);
      Export(coerced);
      LoadFile();
      if WritesInPlace(coerced, dotenv) && StaysOnLine(coerced) {
        ghost var base := BeforeInPlace(old(raw), coerced, dotenv);
        forall i | 0 <= i < |coerced| && Readable(coerced[i].value)
          ensures FileReads(raw, coerced[i].key) ==
            if TakesOver(Lines(Universal(base)), coerced[i].key) then Some(coerced[i].value) else FileReads(base, coerced[i].key)
        {
          LookupAt(coerced, i);
          PersistThenRead(base, coerced, HasCrLf(old(raw)), coerced[i].key);
        }
      }
      return Ok(coerced);
    }
  }

  /** A value that its quoting preserves. */
  predicate Readable(value: string) {
    Unquote(Quote(value)) == value
  }

  lemma OneMoreRead(lines: seq<string>, line: string)
    ensures forall key :: Mentioned(lines + [line], key) <==> Mentioned(lines, key) || Speaks(line, key)
    ensures forall key :: (
      Reads(lines + [line], key) ==
        if Assigns(line, key) then Some(Unquote(Parsed(line).value.value)) else if Named(line) == Some(key) then None else Reads(lines, key))
  {
    hide Parsed, Named, Unquote;
    forall key
      ensures Mentioned(lines + [line], key) <==> Mentioned(lines, key) || Speaks(line, key)
      ensures Reads(lines + [line], key) ==
        if Assigns(line, key) then Some(Unquote(Parsed(line).value.value)) else if Named(line) == Some(key) then None else Reads(lines, key)
    {
      ReadsAppended(lines, [line], key);
      assert [line][1..] == [];
      assert !Mentioned([], key) && Reads([], key) == None;
    }
  }
}
