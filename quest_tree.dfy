/** The two helpers nested in `parse_quest_tree_from_wiki` of
    script/get_quest_information.py: `extract_field`, which reads one
    `| field = value` line of a quest infobox, and `links_from_text`, which
    turns a field value into quest names. */
module QuestTree {
  import opened Wrappers
  import opened TextUtil
  import opened SeqUtil
  import opened WikiText

  // ---------------------------------------------------------------------
  // extract_field: `^\s*\|\s*FIELD\s*=\s*(.*)\s*$`, case-insensitive,
  // matched against each line; the first match's group, stripped, wins.
  // ---------------------------------------------------------------------

  /** ASCII lower-casing (the case folding `re.IGNORECASE` applies to
      ASCII letters). */
  function AsciiLower(c: char): (d: char)
    ensures 'A' <= c <= 'Z' ==> d as int == c as int + 32
    ensures !('A' <= c <= 'Z') ==> d == c
  {
    if 'A' <= c <= 'Z' then (c as int + 32) as char else c
  }

  predicate SameIgnoringCase(a: char, b: char) {
    AsciiLower(a) == AsciiLower(b)
  }

  /** Case folding leaves no upper-case ASCII letter and is idempotent; two
      characters fold alike exactly when they are equal or the upper- and
      lower-case forms of one ASCII letter. */
  lemma AsciiLowerLaws(c: char, d: char)
    ensures !('A' <= AsciiLower(c) <= 'Z') && AsciiLower(AsciiLower(c)) == AsciiLower(c)
    ensures SameIgnoringCase(c, d) <==>
      || c == d
      || ('A' <= c <= 'Z' && d as int == c as int + 32)
      || ('A' <= d <= 'Z' && c as int == d as int + 32)
  {
  }

  /** The field name occurs at position `k` of the line, ignoring case. */
  predicate FieldAt(line: string, k: nat, field: string) {
    k + |field| <= |line| && forall j :: 0 <= j < |field| ==> SameIgnoringCase(line[k + j], field[j])
  }

  /** The rest of the pattern, `\s*=\s*(.*)\s*$`, from position `e`: the
      group with surrounding whitespace stripped. */
  function ValueAfter(line: string, e: nat): (v: Option<string>)
    requires e <= |line|
    ensures v.Some? ==> Trimmed(v.value)
  {
    var w := SpaceRunEnd(line, e);
    if w < |line| && line[w] == '=' then Some(Strip(line[w + 1..])) else None
  }

  /** The field name at `k`, followed by the rest of the pattern. */
  function MatchAt(line: string, field: string, k: nat): (v: Option<string>)
    requires k <= |line|
    ensures v.Some? ==> Trimmed(v.value)
  {
    if FieldAt(line, k, field) then ValueAfter(line, k + |field|) else None
  }

  /** The `\s*` before the field name is greedy: try the longest run of
      whitespace first (ending at `k`), then give back one character at a
      time down to `lo`. */
  function FieldFrom(line: string, field: string, lo: nat, k: nat): Option<string>
    requires lo <= k <= |line|
    decreases k - lo
  {
    if MatchAt(line, field, k).Some? then MatchAt(line, field, k)
    else if k == lo then None
    else FieldFrom(line, field, lo, k - 1)
  }

  /** Whichever position matches, the value has no surrounding whitespace. */
  lemma {:induction false} FieldFromStripped(line: string, field: string, lo: nat, k: nat)
    requires lo <= k <= |line|
    ensures var v := FieldFrom(line, field, lo, k);
      v.Some? ==> Trimmed(v.value)
    decreases k - lo
  {
    if MatchAt(line, field, k).None? && k > lo {
      FieldFromStripped(line, field, lo, k - 1);
    }
  }

  /** The value a single line gives the field, if the line matches. */
  function MatchField(line: string, field: string): (v: Option<string>)
    ensures v.Some? ==> Trimmed(v.value)
  {
    var a := SpaceRunEnd(line, 0);
    if a < |line| && line[a] == '|' then
      FieldFromStripped(line, field, a + 1, SpaceRunEnd(line, a + 1));
      FieldFrom(line, field, a + 1, SpaceRunEnd(line, a + 1))
    else None
  }

  function FieldMatcher(field: string): string -> Option<string> {
    line => MatchField(line, field)
  }

  /** The value of the first matching line, or "" when none matches. */
  function FieldValue(lines: seq<string>, field: string): string {
    match FirstSome(FieldMatcher(field), lines)
    case Some(v) => v
    case None => []
  }

  /** `extract_field`: scan the infobox's lines in order and return the
      first match's value; "" when no line matches. */
  method ExtractField(infobox: string, field: string) returns (value: string)
    ensures value == FieldValue(SplitLines(infobox), field)
    ensures Trimmed(value)
    ensures (forall k :: 0 <= k < |SplitLines(infobox)| ==> MatchField(SplitLines(infobox)[k], field).None?) ==> value == []
  {
    var lines := SplitLines(infobox);
    var f := FieldMatcher(field);
    var i := 0;
    while i < |lines|
      invariant 0 <= i <= |lines|
      invariant FirstSome(f, lines[i..]) == FirstSome(f, lines)
      invariant forall k :: 0 <= k < i ==> MatchField(lines[k], field).None?
    {
      assert lines[i..][0] == lines[i] && lines[i..][1..] == lines[i + 1..];
      var m := MatchField(lines[i], field);
      assert f(lines[i]) == m;
      if m.Some? {
        return m.value;
      }
      i := i + 1;
    }
    assert lines[i..] == [];
    return [];
  }

  /** The first matching line decides: lines before it do not match, and
      lines after it are not looked at. */
  lemma FirstMatchWins(lines: seq<string>, field: string, i: nat)
    requires i < |lines| && MatchField(lines[i], field).Some?
    requires forall k :: 0 <= k < i ==> MatchField(lines[k], field).None?
    ensures FieldValue(lines, field) == MatchField(lines[i], field).value
  {
    FirstSomeAt(FieldMatcher(field), lines, i);
  }

  /** A whitespace run from `from` up to a non-space at `to` ends there. */
  lemma {:induction false} SpaceRunTo(s: string, from: nat, to: nat)
    requires from <= to < |s| && !IsSpace(s[to])
    requires AllSpace(s[from..to])
    ensures SpaceRunEnd(s, from) == to
    decreases |s| - from
  {
    if from < to {
      assert s[from..to][0] == s[from];
      assert s[from + 1..to] == s[from..to][1..];
      SpaceRunTo(s, from + 1, to);
    }
  }

  /** A field name written in any case starts with a non-space when the
      field does. */
  lemma WrittenStart(field: string, written: string)
    requires field != [] && !IsSpace(field[0])
    requires |written| == |field| && SameIgnoringCase(written[0], field[0])
    ensures !IsSpace(written[0])
  {
  }

  /** Whitespace from `e`, then '=' at `w`: the value follows the '='. */
  lemma EqualsAfterSpace(line: string, e: nat, w: nat)
    requires e <= w < |line| && line[w] == '=' && AllSpace(line[e..w])
    ensures ValueAfter(line, e) == Some(Strip(line[w + 1..]))
  {
    SpaceRunTo(line, e, w);
    EqualsAtRunEnd(line, e, w);
  }

  lemma EqualsAtRunEnd(line: string, e: nat, w: nat)
    requires e <= w < |line| && line[w] == '=' && SpaceRunEnd(line, e) == w
    ensures ValueAfter(line, e) == Some(Strip(line[w + 1..]))
  {
  }

  /** When the field matches right after the whitespace following the
      '|', that match is the line's value. */
  lemma MatchFieldAt(line: string, field: string, a: nat, b: nat)
    requires a < b <= |line| && line[a] == '|'
    requires SpaceRunEnd(line, 0) == a && SpaceRunEnd(line, a + 1) == b
    requires FieldAt(line, b, field) && ValueAfter(line, b + |field|).Some?
    ensures MatchField(line, field) == ValueAfter(line, b + |field|)
  {
    assert MatchAt(line, field, b) == ValueAfter(line, b + |field|);
  }

  /** Whitespace, '|' at `a`, whitespace, and the field name written in any
      case at `b`: the line's value is what follows the name. */
  lemma FieldAfterBar(line: string, field: string, written: string, a: nat, b: nat, v: string)
    requires field != [] && !IsSpace(field[0])
    requires |written| == |field| && forall j :: 0 <= j < |field| ==> SameIgnoringCase(written[j], field[j])
    requires a < b && b + |written| <= |line| && line[a] == '|'
    requires AllSpace(line[..a]) && AllSpace(line[a + 1..b]) && line[b..b + |written|] == written
    requires ValueAfter(line, b + |field|) == Some(v)
    ensures MatchField(line, field) == Some(v)
  {
    WrittenStart(field, written);
    assert line[b] == written[0];
    forall j | 0 <= j < |field| ensures SameIgnoringCase(line[b + j], field[j]) {
      assert line[b + j] == line[b..b + |written|][j] == written[j];
    }
    assert line[0..a] == line[..a];
    SpaceRunTo(line, 0, a);
    SpaceRunTo(line, a + 1, b);
    MatchFieldAt(line, field, a, b);
  }

  /** The documented form `| field = value`: whitespace, '|' at `a`,
      whitespace, the field name written in any ASCII case at `b`,
      whitespace, '=' at `w`; the line yields `value`, the text after the
      '=' stripped. */
  lemma FieldLineAt(line: string, field: string, written: string, a: nat, b: nat, w: nat, value: string)
    requires field != [] && !IsSpace(field[0])
    requires |written| == |field| && forall j :: 0 <= j < |field| ==> SameIgnoringCase(written[j], field[j])
    requires a < b && b + |written| <= w < |line|
    requires AllSpace(line[..a]) && line[a] == '|' && AllSpace(line[a + 1..b])
    requires line[b..b + |written|] == written && AllSpace(line[b + |written|..w]) && line[w] == '='
    requires value == Strip(line[w + 1..])
    ensures MatchField(line, field) == Some(value)
  {
    EqualsAfterSpace(line, b + |written|, w);
    FieldAfterBar(line, field, written, a, b, value);
  }

  /** Where the pieces of `ws1 + "|" + ws2 + written + ws3 + "=" + value`
      sit. */
  lemma FieldLineParts(ws1: string, ws2: string, written: string, ws3: string, value: string)
    ensures var line := ws1 + "|" + ws2 + written + ws3 + "=" + value;
      var b := |ws1| + 1 + |ws2|;
      var w := b + |written| + |ws3|;
      && line[|ws1|] == '|' && line[w] == '='
      && line[..|ws1|] == ws1 && line[|ws1| + 1..b] == ws2 && line[b..b + |written|] == written
      && line[b + |written|..w] == ws3 && line[w + 1..] == value
  {
  }

  /** The same, written as the line `ws1 + "|" + ws2 + written + ws3 + "="
      + value` with whitespace runs `ws1`, `ws2` and `ws3`. */
  lemma PlainFieldLine(field: string, written: string, ws1: string, ws2: string, ws3: string, value: string)
    requires field != [] && !IsSpace(field[0])
    requires |written| == |field| && forall j :: 0 <= j < |field| ==> SameIgnoringCase(written[j], field[j])
    requires AllSpace(ws1) && AllSpace(ws2) && AllSpace(ws3)
    ensures MatchField(ws1 + "|" + ws2 + written + ws3 + "=" + value, field) == Some(Strip(value))
  {
    var line := ws1 + "|" + ws2 + written + ws3 + "=" + value;
    var b := |ws1| + 1 + |ws2|;
    var w := b + |written| + |ws3|;
    FieldLineParts(ws1, ws2, written, ws3, value);
    FieldLineAt(line, field, written, |ws1|, b, w, Strip(value));
  }

  /** A value found by the backtracking search comes from one position at
      or below `k`. */
  lemma {:induction false} FieldFromAt(line: string, field: string, lo: nat, k: nat, v: string) returns (p: nat)
    requires lo <= k <= |line|
    requires FieldFrom(line, field, lo, k) == Some(v)
    ensures lo <= p <= k && MatchAt(line, field, p) == Some(v)
    decreases k - lo
  {
    if MatchAt(line, field, k).Some? {
      p := k;
    } else {
      p := FieldFromAt(line, field, lo, k - 1, v);
    }
  }

  /** The slices of a line cut at `a`, `k`, `e` and `w` put back together. */
  lemma LineFromParts(line: string, a: nat, k: nat, e: nat, w: nat)
    requires a < k <= e <= w < |line| && line[a] == '|' && line[w] == '='
    ensures line == line[..a] + "|" + line[a + 1..k] + line[k..e] + line[e..w] + "=" + line[w + 1..]
  {
    assert line[..a] + "|" + line[a + 1..k] == line[..k];
    assert line[..k] + line[k..e] == line[..e];
    assert line[..e] + line[e..w] == line[..w];
    assert line[..w] + "=" + line[w + 1..] == line;
  }

  /** The text from `from` up to any point of its leading whitespace run is
      whitespace. */
  lemma SpaceRunAll(line: string, from: nat, to: nat)
    requires from <= |line| && from <= to <= SpaceRunEnd(line, from)
    ensures AllSpace(line[from..to])
  {
    var t := line[from..to];
    assert forall j :: 0 <= j < |t| ==> t[j] == line[from + j];
  }

  /** A match at `k`: the field name at `k`, whitespace, then '=' at the
      returned `w`, and the value is the stripped rest. */
  lemma MatchAtParts(line: string, field: string, k: nat, v: string) returns (w: nat)
    requires k <= |line| && MatchAt(line, field, k) == Some(v)
    ensures k + |field| <= w < |line| && line[w] == '='
    ensures forall j :: 0 <= j < |field| ==> SameIgnoringCase(line[k..k + |field|][j], field[j])
    ensures AllSpace(line[k + |field|..w]) && v == Strip(line[w + 1..])
  {
    w := SpaceRunEnd(line, k + |field|);
    SpaceRunAll(line, k + |field|, w);
    var t := line[k..k + |field|];
    assert forall j :: 0 <= j < |t| ==> t[j] == line[k + j];
  }

  /** Where the pieces of a line that yields a value sit: '|' at `a`, the
      field name at `k`, '=' at `w`, whitespace between them. */
  lemma MatchFieldAtParts(line: string, field: string, v: string) returns (a: nat, k: nat, w: nat)
    requires MatchField(line, field) == Some(v)
    ensures a < k && k + |field| <= w < |line| && line[a] == '|' && line[w] == '='
    ensures AllSpace(line[..a]) && AllSpace(line[a + 1..k]) && AllSpace(line[k + |field|..w])
    ensures forall j :: 0 <= j < |field| ==> SameIgnoringCase(line[k..k + |field|][j], field[j])
    ensures v == Strip(line[w + 1..])
  {
    a := SpaceRunEnd(line, 0);
    var b := SpaceRunEnd(line, a + 1);
    k := FieldFromAt(line, field, a + 1, b, v);
    w := MatchAtParts(line, field, k, v);
    SpaceRunAll(line, 0, a);
    SpaceRunAll(line, a + 1, k);
    assert line[0..a] == line[..a];
  }

  /** The converse of PlainFieldLine: every line that yields a value is
      whitespace, '|', whitespace, the field name written in some ASCII
      case, whitespace, '=' and a rest whose stripped form is the value. */
  lemma MatchFieldForm(line: string, field: string, v: string)
    returns (ws1: string, ws2: string, written: string, ws3: string, value: string)
    requires MatchField(line, field) == Some(v)
    ensures AllSpace(ws1) && AllSpace(ws2) && AllSpace(ws3)
    ensures |written| == |field| && forall j :: 0 <= j < |field| ==> SameIgnoringCase(written[j], field[j])
    ensures line == ws1 + "|" + ws2 + written + ws3 + "=" + value
    ensures v == Strip(value)
  {
    var a, k, w := MatchFieldAtParts(line, field, v);
    var e := k + |field|;
    ws1, ws2, written, ws3, value := line[..a], line[a + 1..k], line[k..e], line[e..w], line[w + 1..];
    LineFromParts(line, a, k, e, w);
  }

  // ---------------------------------------------------------------------
  // links_from_text
  // ---------------------------------------------------------------------

  /** The single-character separators of the break pattern: newline, ',',
      ';', '|' and '/'. */
  predicate IsBreakChar(c: char) {
    c == '\n' || c == ',' || c == ';' || c == '|' || c == '/'
  }

  /** Text the break pattern matches: one separator character, or `<br`,
      whitespace, an optional '/' and '>'. */
  predicate IsBreakText(t: string) {
    || (|t| == 1 && IsBreakChar(t[0]))
    || (&& |t| >= 4 && t[0] == '<' && t[1] == 'b' && t[2] == 'r' && t[|t| - 1] == '>'
        && forall j :: 3 <= j < |t| - 1 ==> IsSpace(t[j]) || (j == |t| - 2 && t[j] == '/'))
  }

  /** A match of the break pattern at position `p`, as its end. The first
      alternative is `<br`, a whitespace run, an optional '/', then '>'. */
  function BreakAt(s: string, p: nat): (e: Option<nat>)
    requires p <= |s|
    ensures e.Some? ==> p < e.value <= |s| && IsBreakText(s[p..e.value])
    ensures p < |s| && IsBreakChar(s[p]) ==> e == Some(p + 1)
  {
    var single := if p < |s| && IsBreakChar(s[p]) then Some(p + 1) else None;
    if p + 3 <= |s| && s[p] == '<' && s[p + 1] == 'b' && s[p + 2] == 'r' then
      var w := SpaceRunEnd(s, p + 3);
      if w < |s| && s[w] == '>' then Some(w + 1)
      else if w + 1 < |s| && s[w] == '/' && s[w + 1] == '>' then Some(w + 2)
      else single
    else single
  }

  /** `re.split` at breaks (a `<br>` tag, with optional whitespace and
      '/', or one separator character), scanning from `p` with the current
      piece starting at `start`. */
  function SplitBreaksFrom(s: string, start: nat, p: nat): (parts: seq<string>)
    requires start <= p <= |s|
    requires forall q :: start <= q < p ==> !IsBreakChar(s[q])
    ensures |parts| >= 1
    ensures forall k, j :: 0 <= k < |parts| && 0 <= j < |parts[k]| ==> !IsBreakChar(parts[k][j])
    decreases |s| - p
  {
    if p == |s| then
      assert forall j :: 0 <= j < |s[start..]| ==> s[start..][j] == s[start + j];
      [s[start..]]
    else match BreakAt(s, p)
      case Some(e) =>
        assert forall j :: 0 <= j < |s[start..p]| ==> s[start..p][j] == s[start + j];
        [s[start..p]] + SplitBreaksFrom(s, e, e)
      case None => SplitBreaksFrom(s, start, p + 1)
  }

  /** The breaks `SplitBreaksFrom` splits at, in order. */
  function BreakSepsFrom(s: string, start: nat, p: nat): (seps: seq<string>)
    requires start <= p <= |s|
    ensures forall k :: 0 <= k < |seps| ==> IsBreakText(seps[k])
    decreases |s| - p
  {
    if p == |s| then []
    else match BreakAt(s, p)
      case Some(e) => [s[p..e]] + BreakSepsFrom(s, e, e)
      case None => BreakSepsFrom(s, start, p + 1)
  }

  /** The pieces from `start` on, with the breaks between them, give back
      the rest of the text. */
  lemma {:induction false} SplitBreaksFromJoin(s: string, start: nat, p: nat)
    requires start <= p <= |s|
    requires forall q :: start <= q < p ==> !IsBreakChar(s[q])
    ensures |SplitBreaksFrom(s, start, p)| == |BreakSepsFrom(s, start, p)| + 1
    ensures Interleave(SplitBreaksFrom(s, start, p), BreakSepsFrom(s, start, p)) == s[start..]
    decreases |s| - p
  {
    if p < |s| {
      match BreakAt(s, p)
      case Some(e) =>
        SplitBreaksFromJoin(s, e, e);
        assert SplitBreaksFrom(s, start, p) == [s[start..p]] + SplitBreaksFrom(s, e, e);
        assert BreakSepsFrom(s, start, p) == [s[p..e]] + BreakSepsFrom(s, e, e);
        JoinStep(s, start, p, e, SplitBreaksFrom(s, e, e), BreakSepsFrom(s, e, e));
      case None =>
        SplitBreaksFromJoin(s, start, p + 1);
    }
  }

  function BreakSeps(s: string): (seps: seq<string>)
    ensures forall k :: 0 <= k < |seps| ==> IsBreakText(seps[k])
  {
    BreakSepsFrom(s, 0, 0)
  }

  /** `re.split` at the break pattern: no piece holds a separator
      character. */
  function SplitBreaks(s: string): (parts: seq<string>)
    ensures |parts| >= 1
    ensures forall k, j :: 0 <= k < |parts| && 0 <= j < |parts[k]| ==> !IsBreakChar(parts[k][j])
  {
    SplitBreaksFrom(s, 0, 0)
  }

  /** Splitting at breaks loses nothing: the pieces, with the breaks
      matched between them, give back the text. */
  lemma SplitBreaksJoin(s: string)
    ensures |SplitBreaks(s)| == |BreakSeps(s)| + 1
    ensures Interleave(SplitBreaks(s), BreakSeps(s)) == s
  {
    SplitBreaksFromJoin(s, 0, 0);
    assert s[0..] == s;
  }

  /** The position of the first '>' at or after `from` with no '\n' before
      it. */
  function TagEnd(s: string, from: nat): (e: Option<nat>)
    requires from <= |s|
    ensures e.Some? ==> from <= e.value < |s| && s[e.value] == '>'
    decreases |s| - from
  {
    if from == |s| || s[from] == '\n' then None
    else if s[from] == '>' then Some(from)
    else TagEnd(s, from + 1)
  }

  /** `re.sub(r'<.*?>', '', s)`: each '<' with a '>' later on its line is
      removed together with that '>' and everything between. */
  function StripTags(s: string): (r: string)
    ensures |r| <= |s|
    decreases |s|
  {
    if s == [] then []
    else if s[0] == '<' then
      match TagEnd(s, 1)
      case Some(e) => StripTags(s[e + 1..])
      case None => [s[0]] + StripTags(s[1..])
    else [s[0]] + StripTags(s[1..])
  }

  /** No '<' keeps a '>' after it on its line: nothing left looks like a
      tag. */
  predicate TagFree(r: string) {
    forall i :: 0 <= i < |r| && r[i] == '<' ==> TagEnd(r, i + 1).None?
  }

  /** Looking for the '>' from `k` in `s` is looking from `k - 1` in
      `s[1..]`. */
  lemma {:induction false} TagEndShift(s: string, k: nat)
    requires 1 <= k <= |s|
    ensures TagEnd(s, k).None? <==> TagEnd(s[1..], k - 1).None?
    decreases |s| - k
  {
    if k < |s| {
      assert s[1..][k - 1] == s[k];
      if s[k] != '\n' && s[k] != '>' {
        TagEndShift(s, k + 1);
      }
    }
  }

  /** A first line with no '>' in it holds no tag, so it survives. */
  lemma {:induction false} OpenLineKept(t: string)
    requires TagEnd(t, 0).None?
    ensures TagEnd(StripTags(t), 0).None?
    decreases |t|
  {
    if t != [] && t[0] != '\n' {
      assert t[0] != '>';
      if t[0] == '<' {
        assert TagEnd(t, 1).None? by { TagEndShift(t, 1); }
      }
      assert StripTags(t) == [t[0]] + StripTags(t[1..]);
      TagEndShift(t, 1);
      OpenLineKept(t[1..]);
      var r := StripTags(t);
      assert r[1..] == StripTags(t[1..]);
      TagEndShift(r, 1);
    }
  }

  /** Stripping leaves no tag behind. */
  lemma {:induction false} StripTagsTagFree(s: string)
    ensures TagFree(StripTags(s))
    decreases |s|
  {
    if s != [] {
      if s[0] == '<' && TagEnd(s, 1).Some? {
        StripTagsTagFree(s[TagEnd(s, 1).value + 1..]);
      } else {
        var rest := StripTags(s[1..]);
        var r := StripTags(s);
        assert r == [s[0]] + rest;
        StripTagsTagFree(s[1..]);
        forall i | 0 <= i < |r| && r[i] == '<' ensures TagEnd(r, i + 1).None? {
          assert r[1..] == rest;
          TagEndShift(r, i + 1);
          if i == 0 {
            TagEndShift(s, 1);
            OpenLineKept(s[1..]);
          } else {
            assert rest[i - 1] == r[i];
          }
        }
      }
    }
  }

  /** Text with no tag in it is not changed. */
  lemma {:induction false} TagFreeUnchanged(s: string)
    requires TagFree(s)
    ensures StripTags(s) == s
    decreases |s|
  {
    if s != [] {
      if s[0] == '<' {
        assert TagEnd(s, 1).None?;
      }
      forall i | 0 <= i < |s[1..]| && s[1..][i] == '<' ensures TagEnd(s[1..], i + 1).None? {
        assert s[i + 1] == '<';
        TagEndShift(s, i + 2);
      }
      TagFreeUnchanged(s[1..]);
      assert s == [s[0]] + s[1..];
    }
  }

  /** Removing tags twice is removing them once. */
  lemma StripTagsIdempotent(s: string)
    ensures StripTags(StripTags(s)) == StripTags(s)
  {
    StripTagsTagFree(s);
    TagFreeUnchanged(StripTags(s));
  }

  /** Text without '<' has no tags to strip. */
  lemma {:induction false} NoTagsUnchanged(s: string)
    requires '<' !in s
    ensures StripTags(s) == s
    decreases |s|
  {
    if s != [] {
      assert s[0] != '<';
      assert s == [s[0]] + s[1..];
      NoTagsUnchanged(s[1..]);
      assert s == [s[0]] + s[1..];
    }
  }

  /** `clean_text` for a fixed `decode`, as a function value. */
  function CleanerOf(decode: string -> string): string -> string {
    t => CleanText(decode, t)
  }

  /** `clean_text(re.sub(r'<.*?>', '', p))`. */
  function PieceName(decode: string -> string, piece: string): string {
    CleanText(decode, StripTags(piece))
  }

  /** `PieceName` for a fixed `decode`, as a function value. */
  function PieceCleanerOf(decode: string -> string): string -> string {
    t => PieceName(decode, t)
  }

  /** The non-empty cleaned labels of the links, in order. */
  function LinkNames(decode: string -> string, t: string): seq<string> {
    NonEmpty(Map(CleanerOf(decode), LinkLabels(t)))
  }

  /** The non-empty cleaned pieces of the text split at breaks. */
  function PieceNames(decode: string -> string, t: string): seq<string> {
    NonEmpty(Map(PieceCleanerOf(decode), SplitBreaks(t)))
  }

  /** What `links_from_text` returns: every name is non-empty and cleaned,
      with no surrounding or doubled whitespace and no doubled apostrophe. */
  function Links(decode: string -> string, t: string): (r: seq<string>)
    ensures t == [] ==> r == []
    ensures forall k :: 0 <= k < |r| ==> r[k] != [] && Normalized(r[k]) && NoAdjacent(r[k], '\'')
  {
    LinkNamesClean(decode, t);
    PieceNamesClean(decode, t);
    if t == [] then []
    else if LinkNames(decode, t) != [] then LinkNames(decode, t)
    else PieceNames(decode, t)
  }

  lemma LinkNamesClean(decode: string -> string, t: string)
    ensures forall k :: 0 <= k < |LinkNames(decode, t)| ==>
      Normalized(LinkNames(decode, t)[k]) && NoAdjacent(LinkNames(decode, t)[k], '\'')
  {
    var f := CleanerOf(decode);
    NonEmptyMapFrom(f, LinkLabels(t));
    forall k | 0 <= k < |LinkNames(decode, t)|
      ensures Normalized(LinkNames(decode, t)[k]) && NoAdjacent(LinkNames(decode, t)[k], '\'')
    {
      var j :| 0 <= j < |LinkLabels(t)| && f(LinkLabels(t)[j]) == LinkNames(decode, t)[k];
      assert f(LinkLabels(t)[j]) == CleanText(decode, LinkLabels(t)[j]);
    }
  }

  lemma PieceNamesClean(decode: string -> string, t: string)
    ensures forall k :: 0 <= k < |PieceNames(decode, t)| ==>
      Normalized(PieceNames(decode, t)[k]) && NoAdjacent(PieceNames(decode, t)[k], '\'')
  {
    var f := PieceCleanerOf(decode);
    NonEmptyMapFrom(f, SplitBreaks(t));
    forall k | 0 <= k < |PieceNames(decode, t)|
      ensures Normalized(PieceNames(decode, t)[k]) && NoAdjacent(PieceNames(decode, t)[k], '\'')
    {
      var j :| 0 <= j < |SplitBreaks(t)| && f(SplitBreaks(t)[j]) == PieceNames(decode, t)[k];
      assert f(SplitBreaks(t)[j]) == PieceName(decode, SplitBreaks(t)[j]);
    }
  }

  /** The first loop of `links_from_text`: clean each link label and keep
      the non-empty ones, in order. */
  method CleanLabels(decode: string -> string, labels: seq<string>) returns (found: seq<string>)
    ensures found == NonEmpty(Map(CleanerOf(decode), labels))
  {
    found := [];
    var i := 0;
    while i < |labels|
      invariant 0 <= i <= |labels|
      invariant found == NonEmpty(Map(CleanerOf(decode), labels[..i]))
    {
      var name := CleanText(decode, labels[i]);
      assert CleanerOf(decode)(labels[i]) == name;
      if name != [] {
        found := found + [name];
      }
      NonEmptyMapSnoc(CleanerOf(decode), labels, i);
      i := i + 1;
    }
    assert labels[..i] == labels;
  }

  /** The second loop of `links_from_text`: strip tags from each piece,
      clean it, and keep the non-empty ones, in order. */
  method CleanPieces(decode: string -> string, parts: seq<string>) returns (out: seq<string>)
    ensures out == NonEmpty(Map(PieceCleanerOf(decode), parts))
  {
    out := [];
    var i := 0;
    while i < |parts|
      invariant 0 <= i <= |parts|
      invariant out == NonEmpty(Map(PieceCleanerOf(decode), parts[..i]))
    {
      var p := StripTags(parts[i]);
      p := CleanText(decode, p);
      assert p == PieceName(decode, parts[i]) == PieceCleanerOf(decode)(parts[i]);
      if p != [] {
        out := out + [p];
      }
      NonEmptyMapSnoc(PieceCleanerOf(decode), parts, i);
      i := i + 1;
    }
    assert parts[..i] == parts;
  }

  /** `links_from_text`: "" gives []; when some link label cleans to a
      non-empty name, exactly those names in order; otherwise the cleaned
      pieces of the text split at `<br>`, newlines, ',', ';', '|' and '/'. */
  method LinksFromText(decode: string -> string, t: string) returns (names: seq<string>)
    ensures names == Links(decode, t)
    ensures t == [] ==> names == []
    ensures forall k :: 0 <= k < |names| ==> names[k] != [] && Normalized(names[k])
  {
    if t == [] {
      return [];
    }
    var found := CleanLabels(decode, LinkLabels(t));
    if found != [] {
      return found;
    }
    names := CleanPieces(decode, SplitBreaks(t));
  }
}
