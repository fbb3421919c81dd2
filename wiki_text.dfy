/** The wiki-text cleaners of script/get_quest_information.py:
    `sanitize_for_url`, `replace_wiki_links` (with the link regex written out
    as a scanner), and `clean_text`, whose HTML-entity decoding and tag
    stripping are a parameter `decode`. */
module WikiText {
  import opened Wrappers
  import opened TextUtil

  /** `text.replace(' ', '_')`. */
  function SanitizeForUrl(text: string): (r: string)
    ensures |r| == |text|
    ensures forall i :: 0 <= i < |text| ==> r[i] == (if text[i] == ' ' then '_' else text[i])
  {
    if text == [] then [] else [if text[0] == ' ' then '_' else text[0]] + SanitizeForUrl(text[1..])
  }

  /** The result has no spaces, keeps every other character in place, and
      sanitising twice is sanitising once. */
  lemma SanitizeForUrlLaws(text: string)
    ensures ' ' !in SanitizeForUrl(text)
    ensures forall i :: 0 <= i < |text| && text[i] != ' ' ==> SanitizeForUrl(text)[i] == text[i]
    ensures SanitizeForUrl(SanitizeForUrl(text)) == SanitizeForUrl(text)
  {
    var r := SanitizeForUrl(text);
    assert forall i :: 0 <= i < |r| ==> r[i] != ' ';
  }

  // ---------------------------------------------------------------------
  // The link pattern  \[\[([^|\]]+?)(?:\|([^|\]]+?))?\]\]
  // Both groups consist of characters other than '|' and ']', so each lazy
  // group can only end where such a run ends: group 1 is the whole run after
  // "[[", group 2 (when present) the whole run after the '|'.
  // ---------------------------------------------------------------------

  predicate IsLinkStop(c: char) {
    c == '|' || c == ']'
  }

  /** The end of the run of non-stop characters starting at `from`. */
  function RunEnd(s: string, from: nat): (e: nat)
    requires from <= |s|
    ensures from <= e <= |s|
    ensures forall j :: from <= j < e ==> !IsLinkStop(s[j])
    ensures e < |s| ==> IsLinkStop(s[e])
    decreases |s| - from
  {
    if from == |s| || IsLinkStop(s[from]) then from else RunEnd(s, from + 1)
  }

  /** A match of the link pattern at the start of a string: the text it is
      replaced by (group 2 when present, else group 1) and its length. */
  datatype LinkMatch = LinkMatch(text: string, len: nat)

  function MatchLink(s: string): (m: Option<LinkMatch>)
    ensures m.Some? ==> 4 <= m.value.len <= |s| && |m.value.text| + 4 <= m.value.len
    ensures m.Some? ==> |s| >= 2 && s[0] == '[' && s[1] == '['
    ensures m.Some? ==> s[m.value.len - 2] == ']' && s[m.value.len - 1] == ']'
    ensures m.Some? ==> m.value.text != [] && NoStop(m.value.text)
  {
    if |s| < 2 || s[0] != '[' || s[1] != '[' then None
    else
      var e1 := RunEnd(s, 2);
      if e1 == 2 then None
      else if e1 < |s| && s[e1] == '|' then
        var e2 := RunEnd(s, e1 + 1);
        if e2 > e1 + 1 && e2 + 1 < |s| && s[e2] == ']' && s[e2 + 1] == ']'
        then Some(LinkMatch(s[e1 + 1..e2], e2 + 2))
        else None
      else if e1 + 1 < |s| && s[e1] == ']' && s[e1 + 1] == ']'
      then Some(LinkMatch(s[2..e1], e1 + 2))
      else None
  }

  /** `re.sub(link, repl, text)`, scanning left to right. */
  function ReplaceLinksScan(s: string): (r: string)
    ensures |r| <= |s|
    decreases |s|
  {
    if s == [] then []
    else match MatchLink(s)
      case Some(m) => m.text + ReplaceLinksScan(s[m.len..])
      case None => [s[0]] + ReplaceLinksScan(s[1..])
  }

  /** `replace_wiki_links`: never longer than its input. */
  function ReplaceWikiLinks(text: string): (r: string)
    ensures |r| <= |text|
    ensures text == [] ==> r == []
  {
    if text == [] then text else ReplaceLinksScan(text)
  }

  /** `re.findall(link, text)`, as the labels `g2 if g2 else g1`. */
  function LinkLabels(s: string): (labels: seq<string>)
    ensures |labels| <= |s| / 4
    ensures forall k :: 0 <= k < |labels| ==> labels[k] != [] && NoStop(labels[k])
    decreases |s|
  {
    if s == [] then []
    else match MatchLink(s)
      case Some(m) => [m.text] + LinkLabels(s[m.len..])
      case None => LinkLabels(s[1..])
  }

  predicate NoStop(s: string) {
    forall j :: 0 <= j < |s| ==> !IsLinkStop(s[j])
  }

  /** A string in which "[[" never occurs. */
  predicate NoOpenBrackets(s: string) {
    NoAdjacent(s, '[')
  }

  /** `[[P|L]]` matches with label L, `[[P]]` with label P. */
  lemma MatchLinkForms(p: string, l: string, rest: string)
    requires p != [] && l != [] && NoStop(p) && NoStop(l)
    ensures MatchLink("[[" + p + "|" + l + "]]" + rest) == Some(LinkMatch(l, |p| + |l| + 5))
    ensures MatchLink("[[" + p + "]]" + rest) == Some(LinkMatch(p, |p| + 4))
  {
    MatchPiped(p, l, rest);
    MatchPlain(p, rest);
  }

  lemma MatchPiped(p: string, l: string, rest: string)
    requires p != [] && l != [] && NoStop(p) && NoStop(l)
    ensures MatchLink("[[" + p + "|" + l + "]]" + rest) == Some(LinkMatch(l, |p| + |l| + 5))
  {
    var s := "[[" + p + "|" + l + "]]" + rest;
    assert forall j :: 2 <= j < 2 + |p| ==> s[j] == p[j - 2];
    assert s[2 + |p|] == '|';
    RunEndAt(s, 2, 2 + |p|);
    assert forall j :: 3 + |p| <= j < 3 + |p| + |l| ==> s[j] == l[j - 3 - |p|];
    RunEndAt(s, 3 + |p|, 3 + |p| + |l|);
    assert s[3 + |p|..3 + |p| + |l|] == l;
  }

  lemma MatchPlain(p: string, rest: string)
    requires p != [] && NoStop(p)
    ensures MatchLink("[[" + p + "]]" + rest) == Some(LinkMatch(p, |p| + 4))
  {
    var t := "[[" + p + "]]" + rest;
    assert forall j :: 2 <= j < 2 + |p| ==> t[j] == p[j - 2];
    RunEndAt(t, 2, 2 + |p|);
    assert t[2..2 + |p|] == p;
  }

  lemma RunEndAt(s: string, from: nat, e: nat)
    requires from <= e < |s| && IsLinkStop(s[e])
    requires forall j :: from <= j < e ==> !IsLinkStop(s[j])
    ensures RunEnd(s, from) == e
  {
  }

  /** The rewrites `[[P|L]]` to L and `[[P]]` to P, anywhere a link starts. */
  lemma ReplaceLinkForms(p: string, l: string, rest: string)
    requires p != [] && l != [] && NoStop(p) && NoStop(l)
    ensures ReplaceWikiLinks("[[" + p + "|" + l + "]]" + rest) == l + ReplaceWikiLinks(rest)
    ensures ReplaceWikiLinks("[[" + p + "]]" + rest) == p + ReplaceWikiLinks(rest)
  {
    MatchLinkForms(p, l, rest);
    var s := "[[" + p + "|" + l + "]]" + rest;
    assert s[|p| + |l| + 5..] == rest;
    var t := "[[" + p + "]]" + rest;
    assert t[|p| + 4..] == rest;
  }

  /** Where the pattern never matches, the text comes back unchanged; it
      never matches where "[[" does not occur. */
  lemma {:induction false} NoLinksUnchanged(s: string)
    requires LinkLabels(s) == []
    ensures ReplaceWikiLinks(s) == s
    decreases |s|
  {
    if s != [] {
      assert MatchLink(s).None?;
      NoLinksUnchanged(s[1..]);
      assert s == [s[0]] + s[1..];
    }
  }

  lemma {:induction false} NoOpenBracketsNoLinks(s: string)
    requires NoOpenBrackets(s)
    ensures LinkLabels(s) == []
    decreases |s|
  {
    if s != [] {
      assert MatchLink(s).None? by {
        if |s| >= 2 { assert !DoubledAt(s, '[', 1); }
      }
      NoAdjacentSlice(s, '[', 1, |s|);
      assert s[1..|s|] == s[1..];
      NoOpenBracketsNoLinks(s[1..]);
    }
  }

  // ---------------------------------------------------------------------
  // clean_text
  // ---------------------------------------------------------------------

  /** The number of leading characters equal to `c`. */
  function LeadRun(s: string, c: char): (k: nat)
    ensures k <= |s|
    ensures forall j :: 0 <= j < k ==> s[j] == c
    ensures k < |s| ==> s[k] != c
  {
    if s == [] || s[0] != c then 0 else 1 + LeadRun(s[1..], c)
  }

  /** The characters of `s` other than apostrophes, in order. */
  function Unquoted(s: string): string {
    if s == [] then [] else (if s[0] == '\'' then [] else [s[0]]) + Unquoted(s[1..])
  }

  lemma {:induction false} UnquotedRun(s: string, k: nat)
    requires k <= |s| && forall j :: 0 <= j < k ==> s[j] == '\''
    ensures Unquoted(s) == Unquoted(s[k..])
    decreases k
  {
    if k > 0 {
      UnquotedRun(s[1..], k - 1);
      assert s[1..][k - 1..] == s[k..];
    }
  }

  /** `re.sub("'{2,}", '', s)`: every run of two or more apostrophes goes;
      single apostrophes and every other character stay, in order. */
  function DropQuoteRuns(s: string): (r: string)
    ensures NoAdjacent(r, '\'')
    ensures Unquoted(r) == Unquoted(s)
    ensures s != [] && s[0] != '\'' ==> r != [] && r[0] == s[0]
    ensures s == [] || s[0] != '\'' || LeadRun(s, '\'') >= 2 ==> r == [] || r[0] != '\''
    decreases |s|
  {
    if s == [] then []
    else
      var k := LeadRun(s, '\'');
      if k >= 2 then
        UnquotedRun(s, k);
        DropQuoteRuns(s[k..])
      else
        var rest := DropQuoteRuns(s[1..]);
        assert k == 1 ==> s[1..] == [] || s[1..][0] != '\'';
        NoAdjacentCons(s[0], rest, '\'');
        [s[0]] + rest
  }

  /** Text without doubled apostrophes passes unchanged. */
  lemma {:induction false} DropQuoteRunsIdentity(s: string)
    requires NoAdjacent(s, '\'')
    ensures DropQuoteRuns(s) == s
    decreases |s|
  {
    if s != [] {
      assert LeadRun(s, '\'') < 2 by {
        if |s| > 1 { assert !DoubledAt(s, '\'', 1); }
      }
      NoAdjacentSlice(s, '\'', 1, |s|);
      assert s[1..|s|] == s[1..];
      assert DropQuoteRuns(s[1..]) == s[1..] by { DropQuoteRunsIdentity(s[1..]); }
      assert s == [s[0]] + s[1..];
    }
  }

  /** A run of `k` apostrophes followed by something else (or nothing) is
      the leading run. */
  lemma {:induction false} LeadRunAt(s: string, k: nat)
    requires k <= |s| && forall j :: 0 <= j < k ==> s[j] == '\''
    requires k == |s| || s[k] != '\''
    ensures LeadRun(s, '\'') == k
    decreases k
  {
    if k > 0 {
      LeadRunAt(s[1..], k - 1);
    }
  }

  /** Where `a` and `b` do not meet in two apostrophes, the leading run of
      `a + b` is that of `a`. */
  lemma LeadRunAppend(a: string, b: string)
    requires a != []
    requires b == [] || a[|a| - 1] != '\'' || b[0] != '\''
    ensures LeadRun(a + b, '\'') == LeadRun(a, '\'')
  {
    var s := a + b;
    var k := LeadRun(a, '\'');
    assert forall j :: 0 <= j < k ==> s[j] == a[j];
    if k < |a| {
      assert s[k] == a[k];
    } else if b != [] {
      assert s[k] == b[0];
    }
    LeadRunAt(s, k);
  }

  /** Where `a` and `b` do not meet in two apostrophes, the runs removed
      from `a + b` are those of `a` and those of `b`. */
  lemma {:induction false} DropQuoteRunsAppend(a: string, b: string)
    requires a == [] || b == [] || a[|a| - 1] != '\'' || b[0] != '\''
    ensures DropQuoteRuns(a + b) == DropQuoteRuns(a) + DropQuoteRuns(b)
    decreases |a|
  {
    if a == [] {
      assert a + b == b;
    } else {
      var k := LeadRun(a, '\'');
      LeadRunAppend(a, b);
      var a' := if k >= 2 then a[k..] else a[1..];
      assert a' == [] || a'[|a'| - 1] == a[|a| - 1];
      DropQuoteRunsAppend(a', b);
      if k >= 2 {
        DropQuoteRunsAppendSkip(a, b, k);
      } else {
        DropQuoteRunsAppendKeep(a, b);
      }
    }
  }

  /** A leading run of `a` that `a + b` shares is dropped from both. */
  lemma DropQuoteRunsAppendSkip(a: string, b: string, k: nat)
    requires a != [] && k == LeadRun(a, '\'') && k >= 2
    requires LeadRun(a + b, '\'') == k
    requires DropQuoteRuns(a[k..] + b) == DropQuoteRuns(a[k..]) + DropQuoteRuns(b)
    ensures DropQuoteRuns(a + b) == DropQuoteRuns(a) + DropQuoteRuns(b)
  {
    DropAppend(a, b, k);
  }

  /** A first character of `a` that `a + b` keeps is kept in both. */
  lemma DropQuoteRunsAppendKeep(a: string, b: string)
    requires a != [] && LeadRun(a, '\'') < 2 && LeadRun(a + b, '\'') < 2
    requires DropQuoteRuns(a[1..] + b) == DropQuoteRuns(a[1..]) + DropQuoteRuns(b)
    ensures DropQuoteRuns(a + b) == DropQuoteRuns(a) + DropQuoteRuns(b)
  {
    DropQuoteRunsKeepFirst(a, b);
    assert DropQuoteRuns(a) == [a[0]] + DropQuoteRuns(a[1..]);
    ConsAppend(a[0], DropQuoteRuns(a[1..]), DropQuoteRuns(b));
  }

  lemma DropQuoteRunsKeepFirst(a: string, b: string)
    requires a != [] && LeadRun(a + b, '\'') < 2
    ensures DropQuoteRuns(a + b) == [a[0]] + DropQuoteRuns(a[1..] + b)
  {
    DropAppend(a, b, 1);
  }

  /** Dropping a prefix of `a` from `a + b`. */
  lemma DropAppend(a: string, b: string, k: nat)
    requires k <= |a|
    ensures (a + b)[k..] == a[k..] + b
  { }

  /** Concatenation regroups around a leading character. */
  lemma ConsAppend(c: char, x: string, y: string)
    ensures [c] + (x + y) == ([c] + x) + y
  { }

  /** A lone apostrophe, with no apostrophe beside it, survives: the text
      on either side is cleaned on its own. */
  lemma DropQuoteRunsLone(a: string, b: string)
    requires a == [] || a[|a| - 1] != '\''
    requires b == [] || b[0] != '\''
    ensures DropQuoteRuns(a + "'" + b) == DropQuoteRuns(a) + "'" + DropQuoteRuns(b)
  {
    var q := "'" + b;
    if b != [] {
      assert q[1] == b[0];
    }
    LeadRunAt(q, 1);
    assert q[1..] == b;
    assert DropQuoteRuns(q) == "'" + DropQuoteRuns(b);
    DropQuoteRunsAppend(a, q);
    SnocAppend(a, '\'', b);
    SnocAppend(DropQuoteRuns(a), '\'', DropQuoteRuns(b));
  }

  /** Concatenation regroups around a middle character. */
  lemma SnocAppend(x: string, c: char, y: string)
    ensures x + [c] + y == x + ([c] + y)
  { }

  /** A run of two or more apostrophes disappears entirely. */
  lemma DropQuoteRunsRun(n: nat)
    requires n >= 2
    ensures DropQuoteRuns(seq(n, _ => '\'')) == []
  {
    var s := seq(n, _ => '\'');
    LeadRunAt(s, n);
    assert s[n..] == [];
  }

  /** Putting `x` in front keeps `c` undoubled unless `x` and the old first
      character are both `c`. */
  lemma NoAdjacentCons(x: char, rest: string, c: char)
    requires NoAdjacent(rest, c)
    requires x != c || rest == [] || rest[0] != c
    ensures NoAdjacent([x] + rest, c)
  {
    var r := [x] + rest;
    forall i | 0 < i < |r| ensures !DoubledAt(r, c, i) {
      if i > 1 { assert !DoubledAt(rest, c, i - 1); }
    }
  }

  lemma NoAdjacentSlice(s: string, c: char, i: nat, j: nat)
    requires NoAdjacent(s, c) && i <= j <= |s|
    ensures NoAdjacent(s[i..j], c)
  {
    var t := s[i..j];
    forall k | 0 < k < |t| ensures !DoubledAt(t, c, k) {
      assert t[k - 1] == s[i + k - 1] && t[k] == s[i + k];
      assert !DoubledAt(s, c, i + k);
    }
  }

  /** `s.split()` keeps a property that holds of every slice. */
  lemma {:induction false} WordsNoAdjacent(s: string, c: char)
    requires NoAdjacent(s, c)
    ensures forall k :: 0 <= k < |Words(s)| ==> NoAdjacent(Words(s)[k], c)
    decreases |s|
  {
    var t := TrimLeft(s);
    var y := TrimLeftDrops(s);
    NoAdjacentSlice(s, c, |y|, |s|);
    assert s[|y|..|s|] == t;
    if t != [] {
      var n := WordEnd(t);
      var w, rest := t[..n], t[n..];
      NoAdjacentSlice(t, c, 0, n);
      assert t[0..n] == w;
      NoAdjacentSlice(t, c, n, |t|);
      assert t[n..|t|] == rest;
      WordsNoAdjacent(rest, c);
      assert Words(s) == [w] + Words(rest);
      ConsNoAdjacent(w, Words(rest), c);
    }
  }

  lemma ConsNoAdjacent(w: string, ws: seq<string>, c: char)
    requires NoAdjacent(w, c)
    requires forall k :: 0 <= k < |ws| ==> NoAdjacent(ws[k], c)
    ensures forall k :: 0 <= k < |[w] + ws| ==> NoAdjacent(([w] + ws)[k], c)
  {
    forall k | 0 < k < |[w] + ws| ensures ([w] + ws)[k] == ws[k - 1] { }
  }

  /** Joining non-empty, whitespace-free words with single spaces gives a
      normalized string; doubled characters other than the space can only
      come from the words themselves. */
  lemma {:induction false} JoinWordsNormalized(ws: seq<string>, c: char)
    requires forall k :: 0 <= k < |ws| ==> ws[k] != [] && NoSpace(ws[k]) && NoAdjacent(ws[k], c)
    requires c != ' '
    ensures var j := JoinWith(ws, " ");
      Normalized(j) && NoAdjacent(j, c) && (ws != [] ==> j != [] && j[0] == ws[0][0])
  {
    if |ws| == 1 {
      var w := ws[0];
      assert forall i :: 0 <= i < |w| ==> !IsSpace(w[i]);
    } else if |ws| > 1 {
      var w, rest := ws[0], JoinWith(ws[1..], " ");
      JoinWordsNormalized(ws[1..], c);
      var j := w + " " + rest;
      assert JoinWith(ws, " ") == j;
      assert rest != [] && !IsSpace(rest[0]) by {
        assert ws[1..][0] == ws[1] && !IsSpace(ws[1][0]);
      }
      assert forall i :: 0 <= i < |w| ==> j[i] == w[i] && !IsSpace(j[i]);
      assert forall i :: |w| < i < |j| ==> j[i] == rest[i - |w| - 1];
      forall i | 0 <= i < |j| ensures SpaceSettledAt(j, i) {
        if i > |w| {
          var i' := i - |w| - 1;
          assert SpaceSettledAt(rest, i');
          assert i' > 0 ==> j[i - 1] == rest[i' - 1];
          assert i' < |rest| - 1 ==> j[i + 1] == rest[i' + 1];
        }
      }
      forall i | 0 < i < |j| ensures !DoubledAt(j, c, i) {
        if i < |w| {
          assert !DoubledAt(w, c, i);
        } else if i > |w| + 1 {
          assert !DoubledAt(rest, c, i - |w| - 1);
        }
      }
    }
  }

  /** `clean_text`: empty text comes back as it is; otherwise the stripped
      text is decoded (HTML entities and tags, the parameter `decode`), runs
      of two or more apostrophes are removed and whitespace is collapsed.
      The result has no leading or trailing whitespace, no two consecutive
      spaces and no two consecutive apostrophes. */
  function CleanText(decode: string -> string, text: string): (r: string)
    ensures text == [] ==> r == []
    ensures Normalized(r) && NoAdjacent(r, '\'')
  {
    if text == [] then text
    else
      var decoded := decode(Strip(text));
      var unquoted := DropQuoteRuns(decoded);
      var ws := Words(unquoted);
      WordsAreWords(unquoted);
      WordsNoAdjacent(unquoted, '\'');
      JoinWordsNormalized(ws, '\'');
      var joined := JoinWith(ws, " ");
      NormalizedEnds(joined);
      StripTrimmed(joined);
      Strip(joined)
  }

  /** For non-empty text, the words of the cleaned text are exactly the
      words left once the stripped text is decoded and its apostrophe runs
      are dropped: cleaning only re-spaces the surviving words. */
  lemma CleanTextWords(decode: string -> string, text: string)
    requires text != []
    ensures Words(CleanText(decode, text)) == Words(DropQuoteRuns(decode(Strip(text))))
  {
    var ws := Words(DropQuoteRuns(decode(Strip(text))));
    var joined := JoinWith(ws, " ");
    WordsAreWords(DropQuoteRuns(decode(Strip(text))));
    WordsNoAdjacent(DropQuoteRuns(decode(Strip(text))), '\'');
    JoinWordsNormalized(ws, '\'');
    NormalizedEnds(joined);
    StripTrimmed(joined);
    WordsJoin(ws);
  }

  /** A normalized string has no whitespace at either end. */
  lemma NormalizedEnds(s: string)
    requires Normalized(s)
    ensures s == [] || (!IsSpace(s[0]) && !IsSpace(s[|s| - 1]))
  {
    if s != [] {
      assert SpaceSettledAt(s, 0) && SpaceSettledAt(s, |s| - 1);
    }
  }
}
