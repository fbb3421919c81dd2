/** `extract_bullets` and `parse_table_text` of
    script/get_quest_information.py: turning one wikitable of quests into
    quest records. The per-quest page lookup `parse_quest_tree_from_wiki`
    (a network fetch) is the parameter `fetch`; tag and entity decoding is the
    parameter `decode` of `CleanText`. */
module QuestTable {
  import opened TextUtil
  import opened WikiText
  import opened Wrappers
  import opened SeqUtil

  // ---------------------------------------------------------------------
  // extract_bullets
  // ---------------------------------------------------------------------

  /** The cell's lines, each stripped. */
  function StrippedLines(cell: string): (lines: seq<string>)
    ensures |lines| == |SplitLines(cell)|
  {
    Map(Strip, SplitLines(cell))
  }

  predicate IsBulletLine(ln: string) {
    |ln| > 0 && ln[0] == '*'
  }

  /** `clean_text(replace_wiki_links(s))`, which every cell goes through. */
  function CleanCell(decode: string -> string, s: string): (r: string)
    ensures s == [] ==> r == []
  {
    CleanText(decode, ReplaceWikiLinks(s))
  }

  /** `s.lstrip(c).strip()`. */
  function StripCell(s: string, c: char): string {
    Strip(LStripChar(s, c))
  }

  /** The cleaned text of a bullet line: its leading '*'s and whitespace
      dropped, links replaced, then `clean_text`. */
  function BulletText(decode: string -> string, ln: string): string {
    CleanCell(decode, StripCell(ln, '*'))
  }

  /** What a line contributes: the cleaned text of a bullet line, nothing
      (the empty string) for any other line. */
  function BulletCandidate(decode: string -> string, ln: string): string {
    if IsBulletLine(ln) then BulletText(decode, ln) else []
  }

  /** `BulletCandidate` for a fixed `decode`, as a function value. */
  function BulletCandidateOf(decode: string -> string): string -> string {
    ln => BulletCandidate(decode, ln)
  }

  /** The non-empty cleaned bullet texts of the bullet lines, in order. */
  function BulletItems(decode: string -> string, lines: seq<string>): (items: seq<string>)
    ensures |items| <= |lines|
    ensures forall k :: 0 <= k < |items| ==> items[k] != []
  {
    NonEmpty(Map(BulletCandidateOf(decode), lines))
  }

  /** Taking one more line adds its bullet text, if it has a non-empty one. */
  lemma BulletItemsSnoc(decode: string -> string, lines: seq<string>, i: nat)
    requires i < |lines|
    ensures BulletItems(decode, lines[..i + 1]) == BulletItems(decode, lines[..i])
      + (if BulletCandidate(decode, lines[i]) != [] then [BulletCandidate(decode, lines[i])] else [])
  {
    NonEmptyMapSnoc(BulletCandidateOf(decode), lines, i);
  }

  /** Every bullet item is the cleaned text of one of the bullet lines. */
  lemma BulletItemsFromBulletLines(decode: string -> string, lines: seq<string>)
    ensures forall k :: 0 <= k < |BulletItems(decode, lines)| ==>
      exists j :: 0 <= j < |lines| && IsBulletLine(lines[j]) && BulletItems(decode, lines)[k] == BulletText(decode, lines[j])
  {
    var f := BulletCandidateOf(decode);
    NonEmptyMapFrom(f, lines);
    assert BulletItems(decode, lines) == NonEmpty(Map(f, lines));
    forall k | 0 <= k < |BulletItems(decode, lines)|
      ensures exists j :: 0 <= j < |lines| && IsBulletLine(lines[j]) && BulletItems(decode, lines)[k] == BulletText(decode, lines[j])
    {
      var j :| 0 <= j < |lines| && f(lines[j]) == BulletItems(decode, lines)[k];
      assert f(lines[j]) == BulletCandidate(decode, lines[j]) != [];
    }
  }

  /** `[s.strip() for s in parts if s.strip()]`. */
  function NonEmptyStripped(parts: seq<string>): (r: seq<string>)
    ensures |r| <= |parts|
    ensures forall k :: 0 <= k < |r| ==> r[k] != []
  {
    NonEmpty(Map(Strip, parts))
  }

  /** The fallback of `extract_bullets`: the cleaned cell split at ',', ';'
      and '/'. (The whitespace the source's separator pattern also swallows
      is removed by the final strip anyway.) */
  function CommaItems(decode: string -> string, cell: string): (items: seq<string>)
    ensures forall k :: 0 <= k < |items| ==> items[k] != []
  {
    NonEmptyStripped(SplitOnChars(CleanCell(decode, cell), {',', ';', '/'}))
  }

  /** What `extract_bullets` returns for a cell. */
  function Bullets(decode: string -> string, cell: string): (items: seq<string>)
    ensures cell == [] ==> items == []
    ensures forall k :: 0 <= k < |items| ==> items[k] != []
  {
    if cell == [] then []
    else
      var b := BulletItems(decode, StrippedLines(cell));
      if b != [] then b else CommaItems(decode, cell)
  }

  /** `extract_bullets`: the empty cell gives []; no item is empty; when
      some bullet line has non-empty text, the result is exactly the cleaned
      bullet texts in line order; otherwise it is the comma split of the
      cleaned cell. */
  method ExtractBullets(decode: string -> string, cell: string) returns (items: seq<string>)
    ensures items == Bullets(decode, cell)
    ensures cell == [] ==> items == []
    ensures forall k :: 0 <= k < |items| ==> items[k] != []
    ensures BulletItems(decode, StrippedLines(cell)) != [] ==> items == BulletItems(decode, StrippedLines(cell))
    ensures cell != [] && BulletItems(decode, StrippedLines(cell)) == [] ==> items == CommaItems(decode, cell)
  {
    if cell == [] {
      return [];
    }
    var lines := StrippedLines(cell);
    var bullets: seq<string> := [];
    var i := 0;
    while i < |lines|
      invariant 0 <= i <= |lines|
      invariant bullets == BulletItems(decode, lines[..i])
    {
      var ln := lines[i];
      if IsBulletLine(ln) {
        var item := StripCell(ln, '*');
        item := CleanCell(decode, item);
        if item != [] {
          bullets := bullets + [item];
        }
      }
      BulletItemsSnoc(decode, lines, i);
      i := i + 1;
    }
    assert lines[..i] == lines;
    if bullets != [] {
      return bullets;
    }
    var plain := CleanCell(decode, cell);
    items := NonEmptyStripped(SplitOnChars(plain, {',', ';', '/'}));
  }

  // ---------------------------------------------------------------------
  // parse_table_text
  // ---------------------------------------------------------------------

  /** The last '\n' in s[lo..hi]. */
  function LastNewline(s: string, lo: nat, hi: nat): (r: Option<nat>)
    requires lo <= hi <= |s|
    ensures r.Some? ==> lo <= r.value < hi && s[r.value] == '\n'
    ensures r.Some? ==> forall j :: r.value < j < hi ==> s[j] != '\n'
    ensures r.None? ==> forall j :: lo <= j < hi ==> s[j] != '\n'
    decreases hi
  {
    if hi == lo then None
    else if s[hi - 1] == '\n' then Some(hi - 1)
    else LastNewline(s, lo, hi - 1)
  }

  /** A match of the row separator `\n\|\-\s*\n` at position `p`, as the
      position it ends at. The greedy `\s*` gives back whitespace until a
      '\n' follows, so the match ends after the last '\n' of the whitespace
      run after "\n|-". */
  function RowSepAt(s: string, p: nat): (e: Option<nat>)
    requires p <= |s|
    ensures e.Some? ==> p + 4 <= e.value <= |s|
    ensures e.Some? ==> s[p] == '\n' && s[p + 1] == '|' && s[p + 2] == '-' && s[e.value - 1] == '\n'
    ensures e.Some? ==> forall j :: p + 3 <= j < e.value ==> IsSpace(s[j])
  {
    if p + 3 <= |s| && s[p] == '\n' && s[p + 1] == '|' && s[p + 2] == '-' then
      match LastNewline(s, p + 3, SpaceRunEnd(s, p + 3))
      case Some(j) => Some(j + 1)
      case None => None
    else None
  }

  /** `re.split(r'\n\|\-\s*\n', s)`, scanning from `p` with the current row
      starting at `start`. */
  function SplitRowsFrom(s: string, start: nat, p: nat): (rows: seq<string>)
    requires start <= p <= |s|
    ensures |rows| >= 1
    decreases |s| - p
  {
    if p == |s| then [s[start..]]
    else match RowSepAt(s, p)
      case Some(e) => [s[start..p]] + SplitRowsFrom(s, e, e)
      case None => SplitRowsFrom(s, start, p + 1)
  }

  /** Text the row separator matches: "\n|-", whitespace, and a final
      '\n'. */
  predicate IsRowSep(t: string) {
    && |t| >= 4 && t[0] == '\n' && t[1] == '|' && t[2] == '-' && t[|t| - 1] == '\n'
    && forall j :: 3 <= j < |t| ==> IsSpace(t[j])
  }

  /** The separators `SplitRowsFrom` splits at, in order. */
  function RowSepsFrom(s: string, start: nat, p: nat): (seps: seq<string>)
    requires start <= p <= |s|
    ensures forall k :: 0 <= k < |seps| ==> IsRowSep(seps[k])
    decreases |s| - p
  {
    if p == |s| then []
    else match RowSepAt(s, p)
      case Some(e) =>
        assert forall j :: 0 <= j < e - p ==> s[p..e][j] == s[p + j];
        [s[p..e]] + RowSepsFrom(s, e, e)
      case None => RowSepsFrom(s, start, p + 1)
  }

  /** The rows from `start` on, with the separators between them, give back
      the rest of the text. */
  lemma {:induction false} SplitRowsFromJoin(s: string, start: nat, p: nat)
    requires start <= p <= |s|
    ensures |SplitRowsFrom(s, start, p)| == |RowSepsFrom(s, start, p)| + 1
    ensures Interleave(SplitRowsFrom(s, start, p), RowSepsFrom(s, start, p)) == s[start..]
    decreases |s| - p
  {
    if p < |s| {
      match RowSepAt(s, p)
      case Some(e) =>
        SplitRowsFromJoin(s, e, e);
        assert SplitRowsFrom(s, start, p) == [s[start..p]] + SplitRowsFrom(s, e, e);
        assert RowSepsFrom(s, start, p) == [s[p..e]] + RowSepsFrom(s, e, e);
        JoinStep(s, start, p, e, SplitRowsFrom(s, e, e), RowSepsFrom(s, e, e));
      case None =>
        SplitRowsFromJoin(s, start, p + 1);
    }
  }

  function RowSeps(tableText: string): (seps: seq<string>)
    ensures forall k :: 0 <= k < |seps| ==> IsRowSep(seps[k])
  {
    RowSepsFrom(tableText, 0, 0)
  }

  /** `re.split(r'\n\|\-\s*\n', tableText)`. */
  function SplitRows(tableText: string): (rows: seq<string>)
    ensures |rows| >= 1
  {
    SplitRowsFrom(tableText, 0, 0)
  }

  /** Splitting into rows loses nothing: the rows, with the separators
      matched between them, give back the table text. */
  lemma SplitRowsJoin(tableText: string)
    ensures |SplitRows(tableText)| == |RowSeps(tableText)| + 1
    ensures Interleave(SplitRows(tableText), RowSeps(tableText)) == tableText
  {
    SplitRowsFromJoin(tableText, 0, 0);
    assert tableText[0..] == tableText;
  }

  /** A quest record. */
  datatype Quest = Quest(
    name: string,
    trader: string,
    requiredLocation: string,
    objective: seq<string>,
    reward: seq<string>,
    previousQuests: seq<string>,
    nextQuests: seq<string>)

  /** `cols + [''] * (5 - len(cols))`. */
  function PadTo5(cols: seq<string>): (r: seq<string>)
    requires |cols| <= 5
    ensures |r| == 5 && r[..|cols|] == cols
    ensures forall k :: |cols| <= k < 5 ==> r[k] == []
  {
    cols + seq(5 - |cols|, _ => [])
  }

  /** The five cells of a row: its leading '\n's and '|'s and surrounding
      whitespace dropped, split at the first four "\n|", padded with empty
      cells, each cell's leading '!'s and surrounding whitespace dropped. */
  function Columns(row: string): (cols: seq<string>)
    ensures |cols| == 5
  {
    CellsOf(PadTo5(SplitMax(RowBody(row), '\n', '|', 4)))
  }

  /** The row without its leading '\n's and '|'s and surrounding whitespace. */
  function RowBody(row: string): string {
    Strip(LStripChar(LStripChar(row, '\n'), '|'))
  }

  /** Every character is `c` or whitespace. */
  predicate CharsOrSpace(p: string, c: char) {
    forall m :: 0 <= m < |p| ==> p[m] == c || IsSpace(p[m])
  }

  /** `t` is a slice of `s` with only `c`s and whitespace before it and
      only whitespace after it. */
  predicate PeeledFrom(t: string, s: string, c: char) {
    exists i, j :: 0 <= i <= j <= |s| && t == s[i..j] && CharsOrSpace(s[..i], c) && AllSpace(s[j..])
  }

  /** `s.lstrip(c).strip()` removes leading `c`s and whitespace and trailing
      whitespace, and nothing else. */
  lemma StripCellPeels(s: string, c: char)
    ensures Trimmed(StripCell(s, c)) && PeeledFrom(StripCell(s, c), s, c)
  {
    var u := LStripChar(s, c);
    var r := Strip(u);
    assert r == TrimRight(TrimLeft(u));
    PeelSteps(s, u, TrimLeft(u), r, c);
  }

  lemma PeelSteps(s: string, u: string, l: string, r: string, c: char)
    requires u == LStripChar(s, c) && l == TrimLeft(u) && r == TrimRight(l)
    ensures PeeledFrom(r, s, c)
  {
    var x := LStripCharDrops(s, c);
    var y := TrimLeftDrops(u);
    var z := TrimRightDrops(l);
    Peel(s, x, y, z, r, c);
  }

  /** Cutting `c`s, then whitespace, off the front and whitespace off the
      back leaves a peeled slice. */
  lemma Peel(s: string, x: string, y: string, z: string, r: string, c: char)
    requires s == x + (y + (r + z))
    requires AllChar(x, c) && AllSpace(y) && AllSpace(z)
    ensures PeeledFrom(r, s, c)
  {
    var i, j := |x| + |y|, |x| + |y| + |r|;
    assert s[..i] == x + y;
    assert s[i..j] == r;
    assert s[j..] == z;
    var p := x + y;
    forall m | 0 <= m < |p| ensures p[m] == c || IsSpace(p[m]) {
      if m < |x| { assert p[m] == x[m]; } else { assert p[m] == y[m - |x|]; }
    }
  }

  /** Every cell of `CellsOf` is trimmed and peeled from its part. */
  lemma StripCellsPeel(parts: seq<string>)
    requires |parts| == 5
    ensures forall k :: 0 <= k < 5 ==> Trimmed(StripCell(parts[k], '!')) && PeeledFrom(StripCell(parts[k], '!'), parts[k], '!')
  {
    forall k | 0 <= k < 5
      ensures Trimmed(StripCell(parts[k], '!')) && PeeledFrom(StripCell(parts[k], '!'), parts[k], '!')
    {
      StripCellPeels(parts[k], '!');
    }
  }

  /** Each cell without its leading '!'s and surrounding whitespace: a
      trimmed slice of its part with only '!'s and whitespace cut off. */
  function CellsOf(parts: seq<string>): (cols: seq<string>)
    requires |parts| == 5
    ensures |cols| == 5
    ensures forall k :: 0 <= k < 5 ==> cols[k] == StripCell(parts[k], '!')
    ensures forall k :: 0 <= k < 5 ==> Trimmed(cols[k]) && PeeledFrom(cols[k], parts[k], '!')
  {
    StripCellsPeel(parts);
    seq(5, k requires 0 <= k < 5 => StripCell(parts[k], '!'))
  }

  /** The four splits of a row lose nothing: rejoined with "\n|" they give
      back the stripped row. */
  lemma ColumnsLoseNothing(row: string)
    ensures JoinWith(SplitMax(RowBody(row), '\n', '|', 4), "\n|") == RowBody(row)
  {
    SplitMaxJoin(RowBody(row), '\n', '|', 4);
  }

  predicate IsAsciiAlnum(c: char) {
    ('A' <= c <= 'Z') || ('a' <= c <= 'z') || ('0' <= c <= '9')
  }

  /** `name and re.match(r'^[A-Za-z0-9]', name)`. */
  predicate ValidName(name: string) {
    name != [] && IsAsciiAlnum(name[0])
  }

  predicate IsHeaderOrEmpty(row: string) {
    row == [] || (Strip(row) != [] && Strip(row)[0] == '!')
  }

  /** The list starts with "N", "A": the wiki's "N/A" split at '/'. */
  predicate IsNotApplicable(quests: seq<string>) {
    |quests| >= 2 && quests[0] == "N" && quests[1] == "A"
  }

  /** A previous-quests list starting with "N", "A" (the wiki's "N/A") means
      there is none: the result is the fetched list or empty, and never
      reads as "N/A". */
  function PreviousQuests(fetched: seq<string>): (r: seq<string>)
    ensures r == fetched || r == []
    ensures !IsNotApplicable(r)
    ensures r == [] ==> fetched == [] || IsNotApplicable(fetched)
  {
    if fetched != [] && |fetched| >= 2 && fetched[0] == "N" && fetched[1] == "A" then [] else fetched
  }

  /** The quest one row yields, if any: header and empty rows yield none,
      nor does a row whose cleaned name is empty or does not start with an
      ASCII letter or digit. */
  function ParseRow(decode: string -> string, fetch: string -> (seq<string>, seq<string>), row: string): (q: Option<Quest>)
    ensures IsHeaderOrEmpty(row) ==> q.None?
    ensures q.Some? ==> q.value.name != [] && IsAsciiAlnum(q.value.name[0])
    ensures q.Some? <==> !IsHeaderOrEmpty(row) && ValidName(CleanCell(decode, Columns(row)[0]))
    ensures q.Some? ==> var cols := Columns(row);
      && q.value.name == CleanCell(decode, cols[0])
      && q.value.trader == CleanCell(decode, cols[1])
      && q.value.requiredLocation == CleanCell(decode, cols[2])
      && q.value.objective == Bullets(decode, cols[3])
      && q.value.reward == Bullets(decode, cols[4])
    ensures q.Some? ==> var f := fetch(SanitizeForUrl(q.value.name));
      q.value.previousQuests == PreviousQuests(f.0) && q.value.nextQuests == f.1
  {
    if IsHeaderOrEmpty(row) then None
    else
      var cols := Columns(row);
      var name := CleanCell(decode, cols[0]);
      if !ValidName(name) then None
      else
        var fetched := fetch(SanitizeForUrl(name));
        Some(Quest(
          name,
          CleanCell(decode, cols[1]),
          CleanCell(decode, cols[2]),
          Bullets(decode, cols[3]),
          Bullets(decode, cols[4]),
          PreviousQuests(fetched.0),
          fetched.1))
  }

  /** `ParseRow` for fixed `decode` and `fetch`, as a function value. */
  function RowParser(decode: string -> string, fetch: string -> (seq<string>, seq<string>)): string -> Option<Quest> {
    row => ParseRow(decode, fetch, row)
  }

  /** The quests of a run of rows, in row order. */
  function QuestsOf(decode: string -> string, fetch: string -> (seq<string>, seq<string>), rows: seq<string>): (qs: seq<Quest>)
    ensures |qs| <= |rows|
  {
    Somes(Map(RowParser(decode, fetch), rows))
  }

  /** Row order is preserved: the quests of two runs of rows are those of
      the first followed by those of the second. */
  lemma QuestsOfAppend(decode: string -> string, fetch: string -> (seq<string>, seq<string>), a: seq<string>, b: seq<string>)
    ensures QuestsOf(decode, fetch, a + b) == QuestsOf(decode, fetch, a) + QuestsOf(decode, fetch, b)
  {
    MapAppend(RowParser(decode, fetch), a, b);
    SomesAppend(Map(RowParser(decode, fetch), a), Map(RowParser(decode, fetch), b));
  }

  /** Every quest comes from one of the rows, and so has a usable name. */
  lemma QuestsFromRows(decode: string -> string, fetch: string -> (seq<string>, seq<string>), rows: seq<string>)
    ensures forall k :: 0 <= k < |QuestsOf(decode, fetch, rows)| ==>
      exists j :: 0 <= j < |rows| && ParseRow(decode, fetch, rows[j]) == Some(QuestsOf(decode, fetch, rows)[k])
    ensures forall k :: 0 <= k < |QuestsOf(decode, fetch, rows)| ==>
      QuestsOf(decode, fetch, rows)[k].name != [] && IsAsciiAlnum(QuestsOf(decode, fetch, rows)[k].name[0])
  {
    var f := RowParser(decode, fetch);
    SomesMapFrom(f, rows);
    assert QuestsOf(decode, fetch, rows) == Somes(Map(f, rows));
    forall k | 0 <= k < |QuestsOf(decode, fetch, rows)|
      ensures exists j :: 0 <= j < |rows| && ParseRow(decode, fetch, rows[j]) == Some(QuestsOf(decode, fetch, rows)[k])
      ensures QuestsOf(decode, fetch, rows)[k].name != [] && IsAsciiAlnum(QuestsOf(decode, fetch, rows)[k].name[0])
    {
      var j :| 0 <= j < |rows| && f(rows[j]) == Some(QuestsOf(decode, fetch, rows)[k]);
      assert f(rows[j]) == ParseRow(decode, fetch, rows[j]);
    }
  }

  /** Header rows and empty rows contribute nothing. */
  lemma HeaderRowsSkipped(decode: string -> string, fetch: string -> (seq<string>, seq<string>), rows: seq<string>, row: string)
    requires IsHeaderOrEmpty(row)
    ensures QuestsOf(decode, fetch, rows + [row]) == QuestsOf(decode, fetch, rows)
  {
    var all := rows + [row];
    SomesMapSnoc(RowParser(decode, fetch), all, |rows|);
    assert all[..|rows| + 1] == all && all[..|rows|] == rows;
    assert RowParser(decode, fetch)(row) == ParseRow(decode, fetch, row);
  }

  /** Taking one more row adds the quest it yields, if any. */
  lemma QuestsOfSnoc(decode: string -> string, fetch: string -> (seq<string>, seq<string>), rows: seq<string>, i: nat)
    requires i < |rows|
    ensures QuestsOf(decode, fetch, rows[..i + 1]) == QuestsOf(decode, fetch, rows[..i])
      + (if ParseRow(decode, fetch, rows[i]).Some? then [ParseRow(decode, fetch, rows[i]).value] else [])
  {
    SomesMapSnoc(RowParser(decode, fetch), rows, i);
    assert RowParser(decode, fetch)(rows[i]) == ParseRow(decode, fetch, rows[i]);
  }

  /** The body of `parse_table_text`'s loop for one row: skip header and
      empty rows and rows without a usable name, otherwise build the
      quest. */
  method ParseOne(decode: string -> string, fetch: string -> (seq<string>, seq<string>), row: string)
    returns (quest: Option<Quest>)
    ensures quest == ParseRow(decode, fetch, row)
  {
    if IsHeaderOrEmpty(row) {
      return None;
    }
    var cols := Columns(row);
    var name := CleanCell(decode, cols[0]);
    if name == [] || !IsAsciiAlnum(name[0]) {
      return None;
    }
    var urlName := SanitizeForUrl(name);
    var fetched := fetch(urlName);
    var prevQuests := fetched.0;
    var nextQuests := fetched.1;
    if prevQuests != [] && |prevQuests| >= 2 && prevQuests[0] == "N" && prevQuests[1] == "A" {
      prevQuests := [];
    }
    var trader := CleanCell(decode, cols[1]);
    var requiredLocation := CleanCell(decode, cols[2]);
    var objectiveSteps := ExtractBullets(decode, cols[3]);
    var rewardItems := ExtractBullets(decode, cols[4]);
    assert prevQuests == PreviousQuests(fetched.0);
    var q := Quest(name, trader, requiredLocation, objectiveSteps, rewardItems, prevQuests, nextQuests);
    assert ParseRow(decode, fetch, row) == Some(q);
    quest := Some(q);
  }

  /** `parse_table_text`: split the table into rows, skip header and empty
      rows and rows without a usable name, and build one quest per remaining
      row, in row order. */
  method ParseTableText(decode: string -> string, fetch: string -> (seq<string>, seq<string>), tableText: string)
    returns (quests: seq<Quest>)
    ensures quests == QuestsOf(decode, fetch, SplitRows(tableText))
    ensures |quests| <= |SplitRows(tableText)|
    ensures forall k :: 0 <= k < |quests| ==> quests[k].name != [] && IsAsciiAlnum(quests[k].name[0])
  {
    var rows := SplitRows(tableText);
    quests := [];
    var i := 0;
    while i < |rows|
      invariant 0 <= i <= |rows|
      invariant quests == QuestsOf(decode, fetch, rows[..i])
    {
      QuestsOfSnoc(decode, fetch, rows, i);
      var quest := ParseOne(decode, fetch, rows[i]);
      if quest.Some? {
        quests := quests + [quest.value];
      }
      i := i + 1;
    }
    assert rows[..i] == rows;
    QuestsFromRows(decode, fetch, rows);
  }
}
