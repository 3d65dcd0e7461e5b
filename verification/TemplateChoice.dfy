/** Ranking stored templates for a prompt (artpm_agent/artifacts/templates.py) and choosing one only if
    it wins by a margin (artpm_agent/artifacts/coordinator.py). Scores are in tenths of a point. */
module TemplateChoice {
  import opened TemplateStore
  import opened Text

  const LISTED := 10000
  const MATCHES := 3
  const MARGIN := 30

  // ---------- Scoring ----------

  predicate PartAt(text: string, part: string, i: nat) {
    i + |part| <= |text| && text[i..i + |part|] == part
  }

  predicate Contains(text: string, part: string) {
    exists i: nat :: i <= |text| && PartAt(text, part, i)
  }

  function Spaced(parts: seq<string>): string {
    if parts == [] then "" else if |parts| == 1 then parts[0] else parts[0] + " " + Spaced(parts[1..])
  }

  function SheetParts(sheets: seq<Sheet>): seq<string> {
    if sheets == [] then [] else [sheets[0].name] + sheets[0].columns + SheetParts(sheets[1..])
  }

  function Haystack(t: Template, fold: string -> string): string {
    fold(Spaced([t.name, t.notes, Spaced(t.keywords)] + SheetParts(t.sheets)))
  }

  lemma PartsContained(a: string, b: string, part: string)
    requires Contains(a, part) || Contains(b, part)
    ensures Contains(a + b, part)
  {
    if Contains(a, part) {
      var i: nat :| i <= |a| && PartAt(a, part, i);
      assert (a + b)[i..i + |part|] == a[i..i + |part|];
      assert PartAt(a + b, part, i);
    } else {
      var i: nat :| i <= |b| && PartAt(b, part, i);
      assert (a + b)[|a| + i..|a| + i + |part|] == b[i..i + |part|];
      assert PartAt(a + b, part, |a| + i);
    }
  }

  lemma {:induction false} SpacedContains(parts: seq<string>, k: nat, part: string)
    requires k < |parts| && Contains(parts[k], part)
    ensures Contains(Spaced(parts), part)
  {
    hide Contains;
    if |parts| > 1 {
      if k == 0 {
        PartsContained(parts[0], " ", part);
      } else {
        SpacedContains(parts[1..], k - 1, part);
      }
      PartsContained(parts[0] + " ", Spaced(parts[1..]), part);
    }
  }

  lemma ContainsItself(s: string)
    ensures Contains(s, s)
  {
    assert PartAt(s, s, 0);
  }

  lemma {:induction false} SheetPartsHold(sheets: seq<Sheet>, i: nat)
    requires i < |sheets|
    ensures sheets[i].name in SheetParts(sheets) && forall c :: c in sheets[i].columns ==> c in SheetParts(sheets)
  {
    if i > 0 {
      SheetPartsHold(sheets[1..], i - 1);
    }
  }

  /** A text of a template that a prompt may meet: its name, its notes, a keyword, or the name or a column of
      one of its sheets. */
  predicate TextOf(t: Template, text: string) {
    || text == t.name || text == t.notes || text in t.keywords
    || exists i :: 0 <= i < |t.sheets| && (text == t.sheets[i].name || text in t.sheets[i].columns)
  }

  /** All of them are in the text that is searched. */
  lemma HaystackHolds(t: Template, fold: string -> string, text: string)
    requires TextOf(t, text)
    requires forall whole: string, part: string :: Contains(whole, part) ==> Contains(fold(whole), fold(part))
    ensures Contains(Haystack(t, fold), fold(text))
  {
    hide Contains, Spaced, SheetParts;
    ContainsItself(text);
    var parts := [t.name, t.notes, Spaced(t.keywords)] + SheetParts(t.sheets);
    var k: nat := 0;
    if text == t.notes {
      k := 1;
    } else if text in t.keywords {
      var j :| 0 <= j < |t.keywords| && t.keywords[j] == text;
      SpacedContains(t.keywords, j, text);
      k := 2;
    } else if text != t.name {
      var i :| 0 <= i < |t.sheets| && (text == t.sheets[i].name || text in t.sheets[i].columns);
      SheetPartsHold(t.sheets, i);
      var j :| 0 <= j < |SheetParts(t.sheets)| && SheetParts(t.sheets)[j] == text;
      k := 3 + j;
    }
    SpacedContains(parts, k, text);
  }

  function KeywordHits(keywords: seq<string>, query: string, fold: string -> string): nat {
    if keywords == [] then 0
    else
      var keyword := Strip(fold(keywords[0]));
      (if keyword != "" && Contains(query, keyword) then 1 else 0) + KeywordHits(keywords[1..], query, fold)
  }

  /** How a prompt is read: its folded text, case folding, and splitting into tokens. */
  datatype Reading = Reading(query: string, fold: string -> string, tokens: string -> set<string>)

  /** The points a template gets for its text alone. */
  function TextPoints(t: Template, r: Reading): nat {
    var name, haystack := r.fold(t.name), Haystack(t, r.fold);
    (if name != "" && Contains(r.query, name) then 60 else 0)
    + 12 * KeywordHits(t.keywords, r.query, r.fold)
    + 3 * |r.tokens(r.query) * r.tokens(haystack)|
    + (if Contains(haystack, r.query) then 8 else 0)
  }

  lemma {:induction false} KeywordHitsExactly(keywords: seq<string>, query: string, fold: string -> string)
    ensures KeywordHits(keywords, query, fold) > 0 <==>
      exists k :: k in keywords && Strip(fold(k)) != "" && Contains(query, Strip(fold(k)))
  {
    hide Strip, Contains;
    if keywords != [] {
      KeywordHitsExactly(keywords[1..], query, fold);
      assert keywords == [keywords[0]] + keywords[1..];
    }
  }

  /** A template's text scores exactly when the prompt names it, holds one of its keywords, shares a
      token with it or is contained in it. */
  lemma TextScoresExactly(t: Template, r: Reading)
    ensures TextPoints(t, r) > 0 <==> (
      || (r.fold(t.name) != "" && Contains(r.query, r.fold(t.name)))
      || (exists k :: k in t.keywords && Strip(r.fold(k)) != "" && Contains(r.query, Strip(r.fold(k))))
      || (exists token :: token in r.tokens(r.query) && token in r.tokens(Haystack(t, r.fold)))
      || Contains(Haystack(t, r.fold), r.query))
  {
    hide Strip, Contains, Haystack;
    KeywordHitsExactly(t.keywords, r.query, r.fold);
    var shared := r.tokens(r.query) * r.tokens(Haystack(t, r.fold));
    if |shared| > 0 {
      var token :| token in shared;
    } else {
      assert shared == {};
      assert forall token :: token in r.tokens(r.query) && token in r.tokens(Haystack(t, r.fold)) ==> token in shared;
    }
  }

  /** The keywords that the prompt holds, by their places. */
  function HeldKeywords(keywords: seq<string>, query: string, fold: string -> string): set<nat> {
    set i: nat | i < |keywords| && Strip(fold(keywords[i])) != "" && Contains(query, Strip(fold(keywords[i])))
  }

  lemma {:induction false} OneMoreKeyword(keywords: seq<string>, last: string, query: string, fold: string -> string)
    ensures KeywordHits(keywords + [last], query, fold)
         == KeywordHits(keywords, query, fold) + if Strip(fold(last)) != "" && Contains(query, Strip(fold(last))) then 1 else 0
  {
    hide Strip, Contains;
    if keywords == [] {
      assert keywords + [last] == [last] && [last][1..] == [];
    } else {
      assert (keywords + [last])[1..] == keywords[1..] + [last];
      OneMoreKeyword(keywords[1..], last, query, fold);
    }
  }

  lemma OneMoreHeld(keywords: seq<string>, last: string, query: string, fold: string -> string, n: nat)
    requires n == |keywords|
    ensures n !in HeldKeywords(keywords, query, fold)
    ensures HeldKeywords(keywords + [last], query, fold) ==
      HeldKeywords(keywords, query, fold) + if Strip(fold(last)) != "" && Contains(query, Strip(fold(last))) then {n} else {}
  {
    hide Strip, Contains;
  }

  lemma {:induction false} KeywordHitsAreMany(keywords: seq<string>, query: string, fold: string -> string)
    ensures KeywordHits(keywords, query, fold) == |HeldKeywords(keywords, query, fold)|
    decreases |keywords|
  {
    if keywords != [] {
      var n: nat := |keywords| - 1;
      hide HeldKeywords, Strip, Contains;
      assert keywords == keywords[..n] + [keywords[n]];
      KeywordHitsAreMany(keywords[..n], query, fold);
      OneMoreKeyword(keywords[..n], keywords[n], query, fold);
      OneMoreHeld(keywords[..n], keywords[n], query, fold, n);
    }
  }

  /** What the text of a template is worth: 60 for its name, 12 for each keyword the prompt holds, 3 for each
      token they share, 8 for holding the whole prompt; use adds a tenth each, up to two points. */
  lemma PointsExactly(t: Template, r: Reading)
    ensures var name, haystack := r.fold(t.name), Haystack(t, r.fold);
      10 * TextPoints(t, r) + (if t.usage > 20 then 20 else t.usage) == Score(t, r) &&
      TextPoints(t, r) == 3 * |set token | token in r.tokens(r.query) && token in r.tokens(haystack)|
        + 12 * |HeldKeywords(t.keywords, r.query, r.fold)|
        + (if name != "" && Contains(r.query, name) then 60 else 0) + (if Contains(haystack, r.query) then 8 else 0)
  {
    hide Contains, Haystack, KeywordHits, HeldKeywords;
    KeywordHitsAreMany(t.keywords, r.query, r.fold);
    var haystack := Haystack(t, r.fold);
    assert (set token | token in r.tokens(r.query) && token in r.tokens(haystack)) == r.tokens(r.query) * r.tokens(haystack);
  }

  /** The bonus for use, two points at most. */
  function UsageTenths(t: Template): nat {
    if t.usage < 20 then t.usage else 20
  }

  function Score(t: Template, r: Reading): nat {
    10 * TextPoints(t, r) + UsageTenths(t)
  }

  // ---------- Sorting ----------

  /** A list sorted by `list.sort(reverse=True)`: equal elements keep their order. `above` is the strict
      order of the keys. */
  function Sorted<T>(s: seq<T>, above: (T, T) -> bool): (r: seq<T>)
    ensures |r| == |s|
  {
    if s == [] then [] else Insert(s[0], Sorted(s[1..], above), above)
  }

  function Insert<T>(x: T, s: seq<T>, above: (T, T) -> bool): (r: seq<T>)
    ensures |r| == |s| + 1
  {
    if s != [] && above(s[0], x) then [s[0]] + Insert(x, s[1..], above) else [x] + s
  }

  lemma {:induction false} InsertKeeps<T>(x: T, s: seq<T>, above: (T, T) -> bool)
    ensures multiset(Insert(x, s, above)) == multiset([x] + s)
  {
    if s != [] && above(s[0], x) {
      InsertKeeps(x, s[1..], above);
      assert s == [s[0]] + s[1..];
      assert multiset([x] + s[1..]) == multiset([x]) + multiset(s[1..]);
    }
  }

  lemma {:induction false} SortedKeeps<T>(s: seq<T>, above: (T, T) -> bool)
    ensures multiset(Sorted(s, above)) == multiset(s)
  {
    if s != [] {
      SortedKeeps(s[1..], above);
      InsertKeeps(s[0], Sorted(s[1..], above), above);
      assert s == [s[0]] + s[1..];
    }
  }

  /** An order of keys: asymmetric, and what is not above something below it is not above that either. */
  ghost predicate KeyOrder<T(!new)>(above: (T, T) -> bool) {
    && (forall a, b :: above(a, b) ==> !above(b, a))
    && (forall a, b, c :: above(a, c) ==> above(a, b) || above(b, c))
  }

  predicate InOrder<T>(s: seq<T>, above: (T, T) -> bool) {
    forall i, j :: 0 <= i < j < |s| ==> !above(s[j], s[i])
  }

  lemma {:induction false} InsertInOrder<T(!new)>(x: T, s: seq<T>, above: (T, T) -> bool)
    requires KeyOrder(above) && InOrder(s, above)
    ensures InOrder(Insert(x, s, above), above)
  {
    if s != [] && above(s[0], x) {
      InsertInOrder(x, s[1..], above);
      InsertKeeps(x, s[1..], above);
      var rest := Insert(x, s[1..], above);
      forall j | 0 <= j < |rest| ensures !above(rest[j], s[0]) {
        assert rest[j] in multiset(rest) && rest[j] in multiset([x] + s[1..]);
        assert rest[j] == x || rest[j] in s[1..];
      }
      assert Insert(x, s, above) == [s[0]] + rest;
    } else {
      forall j | 0 <= j < |s| ensures !above(s[j], x) {
        assert j > 0 ==> !above(s[j], s[0]);
      }
    }
  }

  /** Sorting puts nothing in front of what is above it. */
  lemma {:induction false} SortedInOrder<T(!new)>(s: seq<T>, above: (T, T) -> bool)
    requires KeyOrder(above)
    ensures InOrder(Sorted(s, above), above)
  {
    if s != [] {
      SortedInOrder(s[1..], above);
      InsertInOrder(s[0], Sorted(s[1..], above), above);
    }
  }

  // ---------- Search and choice ----------

  predicate ListedAbove(a: Template, b: Template) {
    Less(b.updatedAt, a.updatedAt)
    || (a.updatedAt == b.updatedAt && (a.usage > b.usage || (a.usage == b.usage && Less(b.id, a.id))))
  }

  function Listed(templates: seq<Template>, limit: nat): (r: seq<Template>)
    ensures |r| == if |templates| < limit then |templates| else limit
  {
    var all := Sorted(templates, ListedAbove);
    if |all| > limit then all[..limit] else all
  }

  datatype Scored = Scored(tenths: nat, template: Template)

  predicate RanksAbove(a: Scored, b: Scored) {
    a.tenths > b.tenths || (a.tenths == b.tenths && Less(b.template.updatedAt, a.template.updatedAt))
  }

  function Positive(templates: seq<Template>, r: Reading): seq<Scored> {
    if templates == [] then []
    else
      var score := Score(templates[0], r);
      (if score > 0 then [Scored(score, templates[0])] else []) + Positive(templates[1..], r)
  }

  function Ranked(templates: seq<Template>, r: Reading): seq<Scored> {
    if r.query == "" then [] else Sorted(Positive(Listed(templates, LISTED), r), RanksAbove)
  }

  lemma PositiveNext(listed: seq<Template>, i: nat, scored: seq<Scored>, r: Reading)
    requires i < |listed|
    ensures var score, rest := Score(listed[i], r), Positive(listed[i + 1..], r);
      scored + Positive(listed[i..], r) == (if score > 0 then scored + [Scored(score, listed[i])] else scored) + rest
  {
    hide Score;
    assert listed[i..][0] == listed[i] && listed[i..][1..] == listed[i + 1..];
  }

  lemma PositiveOfNone(listed: seq<Template>, scored: seq<Scored>, r: Reading)
    ensures scored + Positive(listed[|listed|..], r) == scored
  {
    assert listed[|listed|..] == [] && scored + [] == scored;
  }

  /** `search`: scores every listed template, drops the zeros, sorts and cuts. */
  method Search(templates: seq<Template>, r: Reading, limit: nat) returns (matches: seq<Scored>)
    requires 1 <= limit
    ensures matches == if |Ranked(templates, r)| > limit then Ranked(templates, r)[..limit] else Ranked(templates, r)
  {
    hide Score, Positive, Listed, Sorted, RanksAbove;
    if r.query == "" {
      return [];
    }
    var listed := Listed(templates, LISTED);
    var scored: seq<Scored> := [];
    for i := 0 to |listed|
      invariant scored + Positive(listed[i..], r) == Positive(listed, r)
    {
      var score := Score(listed[i], r);
      PositiveNext(listed, i, scored, r);
      if score > 0 {
        scored := scored + [Scored(score, listed[i])];
      }
    }
    PositiveOfNone(listed, scored, r);
    scored := Sorted(scored, RanksAbove);
    return if |scored| > limit then scored[..limit] else scored;
  }

  datatype Choice = Chosen(template: Template) | Missing | Ambiguous

  function ChoiceOf(templates: seq<Template>, r: Reading): Choice {
    var ranked := Ranked(templates, r);
    if ranked == [] then
      if |templates| == 1 then Chosen(templates[0]) else Missing
    else if |ranked| > 1 && ranked[0].tenths < ranked[1].tenths + MARGIN then Ambiguous
    else Chosen(ranked[0].template)
  }

  /** `_template_for_prompt`: the only template there is, or the best match if it leads the second by
      three points. */
  method TemplateForPrompt(templates: seq<Template>, r: Reading) returns (choice: Choice)
    ensures choice == ChoiceOf(templates, r)
  {
    var matches := Search(templates, r, MATCHES);
    if matches == [] {
      var all := Listed(templates, 2);
      if |all| == 1 {
        assert templates == [templates[0]] && templates[1..] == [];
        assert Sorted(templates, ListedAbove) == Insert(templates[0], Sorted([], ListedAbove), ListedAbove);
        return Chosen(all[0]);
      }
      return Missing;
    }
    if |matches| > 1 && matches[0].tenths < matches[1].tenths + MARGIN {
      return Ambiguous;
    }
    return Chosen(matches[0].template);
  }

  // ---------- What being chosen means ----------

  predicate Descending(s: seq<Scored>) {
    forall i, j :: 0 <= i < j < |s| ==> s[i].tenths >= s[j].tenths
  }

  lemma {:induction false} InsertDescending(x: Scored, s: seq<Scored>)
    requires Descending(s)
    ensures Descending(Insert(x, s, RanksAbove))
    ensures Insert(x, s, RanksAbove)[0].tenths == if s == [] || x.tenths > s[0].tenths then x.tenths else s[0].tenths
  {
    hide Less;
    if s != [] && RanksAbove(s[0], x) {
      InsertDescending(x, s[1..]);
      var rest := Insert(x, s[1..], RanksAbove);
      assert s[1..] != [] ==> s[1..][0].tenths <= s[0].tenths;
      assert Insert(x, s, RanksAbove) == [s[0]] + rest;
      forall j | 0 <= j < |rest| ensures rest[j].tenths <= s[0].tenths {
        assert j > 0 ==> rest[0].tenths >= rest[j].tenths;
      }
    }
  }

  lemma {:induction false} SortedDescending(s: seq<Scored>)
    ensures Descending(Sorted(s, RanksAbove))
  {
    if s != [] {
      SortedDescending(s[1..]);
      InsertDescending(s[0], Sorted(s[1..], RanksAbove));
    }
  }

  lemma {:induction false} PositiveExactly(templates: seq<Template>, r: Reading, s: Scored)
    ensures s in Positive(templates, r) <==> s.template in templates && s.tenths == Score(s.template, r) && s.tenths > 0
  {
    hide Score;
    if templates != [] {
      PositiveExactly(templates[1..], r, s);
      assert templates == [templates[0]] + templates[1..];
    }
  }

  lemma ListedAll(templates: seq<Template>, t: Template)
    requires |templates| <= LISTED
    ensures t in Listed(templates, LISTED) <==> t in templates
  {
    SortedKeeps(templates, ListedAbove);
    assert t in Sorted(templates, ListedAbove) <==> t in multiset(templates);
  }

  /** Ranked matches are the stored templates that score, best first. */
  lemma RankedExactly(templates: seq<Template>, r: Reading, s: Scored)
    requires |templates| <= LISTED && r.query != ""
    ensures s in Ranked(templates, r) <==> s.template in templates && s.tenths == Score(s.template, r) && s.tenths > 0
    ensures Descending(Ranked(templates, r))
  {
    hide Score, Listed, Sorted;
    var positive := Positive(Listed(templates, LISTED), r);
    SortedKeeps(positive, RanksAbove);
    SortedDescending(positive);
    PositiveExactly(Listed(templates, LISTED), r, s);
    ListedAll(templates, s.template);
    assert s in Sorted(positive, RanksAbove) <==> s in multiset(positive);
  }

  lemma LessSplits(a: string, b: string, c: string)
    requires Less(a, c)
    ensures Less(a, b) || Less(b, c)
  {
    LessOrEqualOrMore(a, b);
    if Less(b, a) {
      LessTransitive(b, a, c);
    }
  }

  lemma RanksAboveIsOrder()
    ensures KeyOrder(RanksAbove)
  {
    hide Less;
    forall a: Scored, b: Scored | RanksAbove(a, b) ensures !RanksAbove(b, a) {
      LessOrEqualOrMore(a.template.updatedAt, b.template.updatedAt);
    }
    forall a: Scored, b: Scored, c: Scored | RanksAbove(a, c) ensures RanksAbove(a, b) || RanksAbove(b, c) {
      if a.tenths == b.tenths == c.tenths {
        LessSplits(c.template.updatedAt, b.template.updatedAt, a.template.updatedAt);
      }
    }
  }

  lemma ListedAboveIsOrder()
    ensures KeyOrder(ListedAbove)
  {
    hide Less;
    forall a: Template, b: Template | ListedAbove(a, b) ensures !ListedAbove(b, a) {
      LessOrEqualOrMore(a.updatedAt, b.updatedAt);
      LessOrEqualOrMore(a.id, b.id);
    }
    forall a: Template, b: Template, c: Template | ListedAbove(a, c) ensures ListedAbove(a, b) || ListedAbove(b, c) {
      LessOrEqualOrMore(a.updatedAt, b.updatedAt);
      LessOrEqualOrMore(b.updatedAt, c.updatedAt);
      if Less(c.updatedAt, a.updatedAt) {
        LessSplits(c.updatedAt, b.updatedAt, a.updatedAt);
      } else if a.updatedAt == b.updatedAt && Less(c.id, a.id) {
        LessSplits(c.id, b.id, a.id);
      }
    }
  }

  /** Matches come by score and then by the time of their last change, latest first. */
  lemma RankedByScoreThenTime(templates: seq<Template>, r: Reading, i: nat, j: nat)
    requires i < j < |Ranked(templates, r)|
    ensures var a, b := Ranked(templates, r)[i], Ranked(templates, r)[j];
      a.tenths > b.tenths || (a.tenths == b.tenths && !Less(a.template.updatedAt, b.template.updatedAt))
  {
    hide Positive, Listed, Sorted, Less;
    RanksAboveIsOrder();
    SortedInOrder(Positive(Listed(templates, LISTED), r), RanksAbove);
    assert !RanksAbove(Ranked(templates, r)[j], Ranked(templates, r)[i]);
  }

  /** Templates are listed by the time of their last change, then by use, then by id, greatest first. */
  lemma ListedInOrder(templates: seq<Template>, limit: nat, i: nat, j: nat)
    requires i < j < |Listed(templates, limit)|
    ensures var a, b := Listed(templates, limit)[i], Listed(templates, limit)[j];
      && !Less(a.updatedAt, b.updatedAt)
      && (a.updatedAt == b.updatedAt ==> a.usage > b.usage || (a.usage == b.usage && !Less(a.id, b.id)))
  {
    hide Sorted, Less;
    ListedAboveIsOrder();
    SortedInOrder(templates, ListedAbove);
    assert !ListedAbove(Listed(templates, limit)[j], Listed(templates, limit)[i]);
  }

  /** A chosen match leads every other stored template by three points, or is the only one that scores
      at all. */
  lemma ChosenLeads(templates: seq<Template>, r: Reading, u: Template)
    requires |templates| <= LISTED && r.query != ""
    requires ChoiceOf(templates, r).Chosen? && Ranked(templates, r) != []
    requires u in templates && u != ChoiceOf(templates, r).template
    ensures var t := ChoiceOf(templates, r).template;
      && t in templates && Score(t, r) > 0
      && (|Ranked(templates, r)| > 1 ==> Score(t, r) >= Score(u, r) + MARGIN)
      && (|Ranked(templates, r)| == 1 ==> Score(u, r) == 0)
  {
    hide Score, Sorted, Listed, Positive;
    var ranked := Ranked(templates, r);
    RankedExactly(templates, r, ranked[0]);
    var su := Scored(Score(u, r), u);
    RankedExactly(templates, r, su);
    if su in ranked {
      var i :| 0 <= i < |ranked| && ranked[i] == su;
      assert i != 0;
      assert ranked[1].tenths >= ranked[i].tenths;
    } else if |ranked| > 1 {
      RankedExactly(templates, r, ranked[1]);
    }
  }

  /** Choice is sound: when two or more templates score, the one returned beats every other stored
      template by three points and its text alone scores strictly highest, so use never decides
      between equal texts. */
  lemma ChoiceIsByText(templates: seq<Template>, r: Reading, u: Template)
    requires |templates| <= LISTED && r.query != ""
    requires ChoiceOf(templates, r).Chosen? && |Ranked(templates, r)| > 1
    requires u in templates && u != ChoiceOf(templates, r).template
    ensures var t := ChoiceOf(templates, r).template;
      Score(t, r) >= Score(u, r) + MARGIN && TextPoints(t, r) > TextPoints(u, r)
  {
    hide TextPoints, Ranked;
    ChosenLeads(templates, r, u);
  }

  /** A template that scores and leads every other stored one, unless that scores nothing, by 3.0 points or
      more. */
  predicate Leads(templates: seq<Template>, r: Reading, t: Template) {
    && t in templates && Score(t, r) > 0
    && forall u :: u in templates && u != t ==> Score(u, r) == 0 || Score(t, r) >= Score(u, r) + 30
  }

  /** The choice in full. A template that scores is chosen exactly if it leads; if none scores the only stored
      one is; and there is an answer of either failing kind exactly otherwise. */
  lemma ChoiceExactly(templates: seq<Template>, r: Reading)
    requires |templates| <= LISTED && r.query != "" && IdsDistinct(templates)
    ensures (forall u :: u in templates ==> Score(u, r) == 0) ==>
      ChoiceOf(templates, r) == if |templates| == 1 then Chosen(templates[0]) else Missing
    ensures forall t :: t in templates && Score(t, r) > 0 ==> (ChoiceOf(templates, r) == Chosen(t) <==> Leads(templates, r, t))
    ensures (exists u :: u in templates && Score(u, r) > 0) && (forall t :: t in templates ==> !Leads(templates, r, t)) ==>
      ChoiceOf(templates, r) == Ambiguous
  {
    hide Score, Ranked, Leads;
    var ranked := Ranked(templates, r);
    forall u | u in templates ensures Score(u, r) > 0 <==> Scored(Score(u, r), u) in ranked {
      RankedExactly(templates, r, Scored(Score(u, r), u));
    }
    if ranked != [] {
      RankedExactly(templates, r, ranked[0]);
      assert ranked[0] in ranked;
      SomeoneRanked(templates, r);
    }
  }

  lemma {:induction false} PositiveOnce(templates: seq<Template>, r: Reading, s: Scored)
    ensures multiset(Positive(templates, r))[s] <= multiset(templates)[s.template]
  {
    hide Score;
    if templates != [] {
      PositiveOnce(templates[1..], r, s);
      assert templates == [templates[0]] + templates[1..];
      var score := Score(templates[0], r);
      assert multiset([Scored(score, templates[0])] + Positive(templates[1..], r))
          == multiset([Scored(score, templates[0])]) + multiset(Positive(templates[1..], r));
    }
  }

  lemma {:induction false} StoredOnce(templates: seq<Template>, t: Template)
    requires IdsDistinct(templates)
    ensures multiset(templates)[t] <= 1
  {
    if templates != [] {
      var n := |templates| - 1;
      StoredOnce(templates[..n], t);
      assert templates == templates[..n] + [templates[n]];
      if t == templates[n] {
        assert t !in templates[..n];
      }
    }
  }

  lemma RunnerUpIsAnother(templates: seq<Template>, r: Reading)
    requires |templates| <= LISTED && r.query != "" && IdsDistinct(templates) && |Ranked(templates, r)| > 1
    ensures Ranked(templates, r)[0].template != Ranked(templates, r)[1].template
  {
    hide Score, Sorted, Listed, Positive;
    var ranked := Ranked(templates, r);
    var a, b := ranked[0], ranked[1];
    RankedExactly(templates, r, a);
    RankedExactly(templates, r, b);
    assert a in ranked && b in ranked;
    if a.template == b.template {
      TwiceAtTheFront(ranked);
      RankedOnce(templates, r, a);
    }
  }

  lemma TwiceAtTheFront(s: seq<Scored>)
    requires |s| > 1 && s[0] == s[1]
    ensures multiset(s)[s[0]] > 1
  {
    assert s == [s[0], s[1]] + s[2..];
  }

  lemma RankedOnce(templates: seq<Template>, r: Reading, s: Scored)
    requires |templates| <= LISTED && r.query != "" && IdsDistinct(templates)
    ensures multiset(Ranked(templates, r))[s] <= 1
  {
    hide Positive, Sorted;
    var listed := Listed(templates, LISTED);
    SortedKeeps(templates, ListedAbove);
    SortedKeeps(Positive(listed, r), RanksAbove);
    PositiveOnce(listed, r, s);
    StoredOnce(templates, s.template);
  }

  lemma SomeoneRanked(templates: seq<Template>, r: Reading)
    requires |templates| <= LISTED && r.query != "" && IdsDistinct(templates) && Ranked(templates, r) != []
    ensures var first := Ranked(templates, r)[0].template;
      && first in templates && Score(first, r) > 0
      && (forall t :: Leads(templates, r, t) ==> t == first)
      && ChoiceOf(templates, r) == if Leads(templates, r, first) then Chosen(first) else Ambiguous
  {
    hide Score, Ranked;
    var ranked := Ranked(templates, r);
    var first := ranked[0].template;
    RankedExactly(templates, r, ranked[0]);
    assert ranked[0] in ranked;
    forall u | u in templates && u != first && Score(u, r) > 0
      ensures |ranked| > 1 && ranked[0].tenths >= ranked[1].tenths >= Score(u, r)
    {
      var s := Scored(Score(u, r), u);
      RankedExactly(templates, r, s);
      var i :| 0 <= i < |ranked| && ranked[i] == s;
      assert i > 0;
    }
    if |ranked| > 1 {
      RunnerUpIsAnother(templates, r);
      RankedExactly(templates, r, ranked[1]);
      assert ranked[1] in ranked;
    }
  }

  predicate SomeTextScores(templates: seq<Template>, r: Reading) {
    exists u :: u in templates && TextPoints(u, r) > 0
  }

  lemma ChosenScoresIfAnyDoes(templates: seq<Template>, r: Reading)
    requires |templates| <= LISTED && r.query != "" && |templates| > 1
    requires ChoiceOf(templates, r).Chosen?
    ensures var t := ChoiceOf(templates, r).template;
      t in templates && (TextPoints(t, r) > 0 <==> SomeTextScores(templates, r))
  {
    hide TextPoints, Sorted, Listed, Positive;
    var t := ChoiceOf(templates, r).template;
    RankedExactly(templates, r, Ranked(templates, r)[0]);
    hide Ranked;
    if u :| u in templates && TextPoints(u, r) > 0 {
      if u != t {
        ChosenLeads(templates, r, u);
      }
    }
  }

  /** In general, the template returned has the strictly best text of all if and only if the text of some
      stored template scores for the prompt, which can be asked before choosing. */
  lemma ChosenIsBestTextExactly(templates: seq<Template>, r: Reading)
    requires |templates| <= LISTED && r.query != "" && |templates| > 1 && IdsDistinct(templates)
    requires ChoiceOf(templates, r).Chosen?
    ensures var t := ChoiceOf(templates, r).template;
      SomeTextScores(templates, r) <==> forall u :: u in templates && u != t ==> TextPoints(t, r) > TextPoints(u, r)
  {
    hide TextPoints, Ranked;
    var t := ChoiceOf(templates, r).template;
    ChosenScoresIfAnyDoes(templates, r);
    hide ChoiceOf;
    forall u | u in templates && u != t && TextPoints(t, r) > 0 ensures TextPoints(t, r) > TextPoints(u, r) {
      ChosenLeads(templates, r, u);
    }
    assert templates[0] != templates[1] && templates[0] in templates && templates[1] in templates;
  }

  /** It need not: with no text in common, a template that has merely been used is returned. */
  lemma UseAloneCanDecide(used: Template, other: Template, r: Reading)
    requires r.query != "" && used.usage > 0 && other.usage == 0
    requires TextPoints(used, r) == 0 && TextPoints(other, r) == 0
    ensures ChoiceOf([other, used], r) == Chosen(used)
  {
    hide TextPoints;
    var templates := [other, used];
    var ranked := Ranked(templates, r);
    var s := Scored(Score(used, r), used);
    RankedExactly(templates, r, s);
    forall i | 0 <= i < |ranked| ensures ranked[i] == s {
      RankedExactly(templates, r, ranked[i]);
      assert ranked[i] in ranked;
    }
    OnlyOnePositive(other, used, r);
  }

  lemma OnlyOnePositive(other: Template, used: Template, r: Reading)
    requires r.query != "" && Score(other, r) == 0
    ensures |Ranked([other, used], r)| <= 1
  {
    hide Score, Less;
    var listed := Listed([other, used], LISTED);
    assert Sorted<Template>([], ListedAbove) == [];
    assert Sorted([used], ListedAbove) == Insert(used, [], ListedAbove) == [used];
    assert Insert(other, [used], ListedAbove) == if ListedAbove(used, other) then [used] + Insert(other, [used][1..], ListedAbove) else [other] + [used];
    assert [other, used][1..] == [used] && [used][1..] == [];
    assert listed == [other, used] || listed == [used, other];
    PositiveOfPair(listed[0], listed[1], r);
    assert listed == [listed[0], listed[1]];
  }

  lemma PositiveOfPair(a: Template, b: Template, r: Reading)
    requires Score(a, r) == 0 || Score(b, r) == 0
    ensures |Positive([a, b], r)| <= 1
  {
    hide Score;
    assert [a, b][1..] == [b] && [b][1..] == [];
    assert Positive([], r) == [];
    assert |Positive([b], r)| <= if Score(b, r) > 0 then 1 else 0;
  }
}
