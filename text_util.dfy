/** Python's string primitives as the scripts use them: the `str.isspace`
    character set, `strip`/`lstrip`, `splitlines`, `split()` without
    arguments, `str.join`, and splitting on a literal separator. */
module TextUtil {

  /** Python's `str.isspace` characters (also what `\s` matches in `re`). */
  predicate IsSpace(c: char) {
    || c == ' ' || ('\t' <= c <= '\r') || ('\U{1C}' <= c <= '\U{1F}')
    || c == '\U{85}' || c == '\U{A0}' || c == '\U{1680}'
    || ('\U{2000}' <= c <= '\U{200A}') || c == '\U{2028}' || c == '\U{2029}'
    || c == '\U{202F}' || c == '\U{205F}' || c == '\U{3000}'
  }

  predicate NoSpace(s: string) {
    forall i :: 0 <= i < |s| ==> !IsSpace(s[i])
  }

  predicate AllSpace(s: string) {
    forall i :: 0 <= i < |s| ==> IsSpace(s[i])
  }

  /** The line boundaries of `str.splitlines` (`\r\n` counts as one). */
  predicate IsLineBreak(c: char) {
    || c == '\n' || c == '\r' || c == '\U{0B}' || c == '\U{0C}'
    || ('\U{1C}' <= c <= '\U{1E}') || c == '\U{85}' || c == '\U{2028}' || c == '\U{2029}'
  }

  /** `s.lstrip()`. */
  function TrimLeft(s: string): (r: string)
    ensures |r| <= |s|
    ensures r == [] || !IsSpace(r[0])
  {
    if s != [] && IsSpace(s[0]) then TrimLeft(s[1..]) else s
  }

  /** `s.rstrip()`. */
  function TrimRight(s: string): (r: string)
    ensures |r| <= |s| && (r != [] ==> r[0] == s[0])
    ensures r == [] || !IsSpace(r[|r| - 1])
  {
    if s != [] && IsSpace(s[|s| - 1]) then TrimRight(s[..|s| - 1]) else s
  }

  /** `s.strip()`. */
  function Strip(s: string): (r: string)
    ensures |r| <= |s|
    ensures r == [] || (!IsSpace(r[0]) && !IsSpace(r[|r| - 1]))
  {
    TrimRight(TrimLeft(s))
  }

  /** No whitespace at either end (what `strip` leaves). */
  predicate Trimmed(s: string) {
    s == [] || (!IsSpace(s[0]) && !IsSpace(s[|s| - 1]))
  }

  /** Stripping a string without surrounding whitespace changes nothing. */
  lemma StripTrimmed(s: string)
    requires s == [] || (!IsSpace(s[0]) && !IsSpace(s[|s| - 1]))
    ensures Strip(s) == s
  {
  }

  /** `s.lstrip(c)` for a single character `c`. */
  function LStripChar(s: string, c: char): (r: string)
    ensures |r| <= |s|
    ensures r == [] || r[0] != c
  {
    if s != [] && s[0] == c then LStripChar(s[1..], c) else s
  }

  /** Every character is `c`. */
  predicate AllChar(p: string, c: char) {
    forall m :: 0 <= m < |p| ==> p[m] == c
  }

  lemma ConsSplit(s: string, a: string, b: string)
    requires s != [] && s[1..] == a + b
    ensures s == ([s[0]] + a) + b
  {
    assert s == [s[0]] + s[1..];
  }

  lemma SnocSplit(s: string, a: string, b: string)
    requires s != [] && s[..|s| - 1] == a + b
    ensures s == a + (b + [s[|s| - 1]])
  {
    assert s == s[..|s| - 1] + [s[|s| - 1]];
  }

  lemma AllCharCons(d: char, x: string, c: char)
    requires d == c && AllChar(x, c)
    ensures AllChar([d] + x, c)
  {
    assert forall m :: 0 < m < |[d] + x| ==> ([d] + x)[m] == x[m - 1];
  }

  lemma AllSpaceCons(d: char, y: string)
    requires IsSpace(d) && AllSpace(y)
    ensures AllSpace([d] + y)
  {
    assert forall m :: 0 < m < |[d] + y| ==> ([d] + y)[m] == y[m - 1];
  }

  lemma AllSpaceSnoc(z: string, d: char)
    requires IsSpace(d) && AllSpace(z)
    ensures AllSpace(z + [d])
  {
    assert forall m :: 0 <= m < |z| ==> (z + [d])[m] == z[m];
  }

  /** `lstrip(c)`, `lstrip()` and `rstrip()` drop only a run of `c` or of
      whitespace from their end of the string. */
  lemma {:induction false} LStripCharDrops(s: string, c: char) returns (x: string)
    ensures s == x + LStripChar(s, c) && AllChar(x, c)
    decreases |s|
  {
    if s != [] && s[0] == c {
      var t := s[1..];
      var x' := LStripCharDrops(t, c);
      x := [s[0]] + x';
      assert LStripChar(s, c) == LStripChar(t, c);
      ConsSplit(s, x', LStripChar(t, c));
      AllCharCons(s[0], x', c);
    } else {
      x := [];
      assert LStripChar(s, c) == s;
      assert x + s == s;
    }
  }

  lemma {:induction false} TrimLeftDrops(s: string) returns (y: string)
    ensures s == y + TrimLeft(s) && AllSpace(y)
    decreases |s|
  {
    if s != [] && IsSpace(s[0]) {
      var t := s[1..];
      var y' := TrimLeftDrops(t);
      y := [s[0]] + y';
      assert TrimLeft(s) == TrimLeft(t);
      ConsSplit(s, y', TrimLeft(t));
      AllSpaceCons(s[0], y');
    } else {
      y := [];
      assert TrimLeft(s) == s;
      assert y + s == s;
    }
  }

  lemma {:induction false} TrimRightDrops(s: string) returns (z: string)
    ensures s == TrimRight(s) + z && AllSpace(z)
    decreases |s|
  {
    if s != [] && IsSpace(s[|s| - 1]) {
      var t := s[..|s| - 1];
      var z' := TrimRightDrops(t);
      z := z' + [s[|s| - 1]];
      assert TrimRight(s) == TrimRight(t);
      SnocSplit(s, TrimRight(t), z');
      AllSpaceSnoc(z', s[|s| - 1]);
    } else {
      z := [];
      assert TrimRight(s) == s;
      assert s + z == s;
    }
  }

  /** The index of the first character of `s` satisfying the class, or |s|. */
  function FirstIn(s: string, seps: set<char>): (i: nat)
    ensures i <= |s|
    ensures forall j :: 0 <= j < i ==> s[j] !in seps
    ensures i < |s| ==> s[i] in seps
  {
    if s == [] || s[0] in seps then 0 else 1 + FirstIn(s[1..], seps)
  }

  /** The index where the first line of `s` ends, or |s|. */
  function LineEnd(s: string): (i: nat)
    ensures i <= |s|
    ensures forall j :: 0 <= j < i ==> !IsLineBreak(s[j])
    ensures i < |s| ==> IsLineBreak(s[i])
  {
    if s == [] || IsLineBreak(s[0]) then 0 else 1 + LineEnd(s[1..])
  }

  /** `s.splitlines()`: the lines of `s` without their terminators; a final
      terminator does not start another line. */
  function SplitLines(s: string): (lines: seq<string>)
    ensures forall k, j :: 0 <= k < |lines| && 0 <= j < |lines[k]| ==> !IsLineBreak(lines[k][j])
    ensures s == [] <==> lines == []
    decreases |s|
  {
    if s == [] then []
    else
      var i := LineEnd(s);
      if i == |s| then [s]
      else
        var next := if s[i] == '\r' && i + 1 < |s| && s[i + 1] == '\n' then i + 2 else i + 1;
        [s[..i]] + SplitLines(s[next..])
  }

  /** `re.split('[...]', s)` over a character class: the pieces between
      separator characters, one more piece than separators. */
  function SplitOnChars(s: string, seps: set<char>): (parts: seq<string>)
    ensures |parts| >= 1
    ensures forall k, j :: 0 <= k < |parts| && 0 <= j < |parts[k]| ==> parts[k][j] !in seps
    decreases |s|
  {
    var i := FirstIn(s, seps);
    if i == |s| then [s] else [s[..i]] + SplitOnChars(s[i + 1..], seps)
  }

  /** The separator characters `SplitOnChars` splits at, in order. */
  function SplitSeps(s: string, seps: set<char>): (r: seq<string>)
    ensures forall k :: 0 <= k < |r| ==> |r[k]| == 1 && r[k][0] in seps
    decreases |s|
  {
    var i := FirstIn(s, seps);
    if i == |s| then [] else [[s[i]]] + SplitSeps(s[i + 1..], seps)
  }

  /** `parts[0] + seps[0] + parts[1] + ... + parts[n - 1]`: the pieces of a
      split put back together with the separators found between them. */
  function Interleave(parts: seq<string>, seps: seq<string>): string
    requires |parts| == |seps| + 1
  {
    if seps == [] then parts[0] else parts[0] + seps[0] + Interleave(parts[1..], seps[1..])
  }

  lemma InterleaveCons(x: string, sep: string, parts: seq<string>, seps: seq<string>)
    requires |parts| == |seps| + 1
    ensures Interleave([x] + parts, [sep] + seps) == x + sep + Interleave(parts, seps)
  {
    assert ([x] + parts)[1..] == parts && ([sep] + seps)[1..] == seps;
  }

  /** One step of a split's round trip: the piece before a separator, the
      separator, and the rest put back together. */
  lemma JoinStep(s: string, start: nat, p: nat, e: nat, parts: seq<string>, seps: seq<string>)
    requires start <= p <= e <= |s| && |parts| == |seps| + 1
    requires Interleave(parts, seps) == s[e..]
    ensures Interleave([s[start..p]] + parts, [s[p..e]] + seps) == s[start..]
  {
    InterleaveCons(s[start..p], s[p..e], parts, seps);
    assert s[start..] == s[start..p] + s[p..e] + s[e..];
  }

  /** Splitting at separator characters loses nothing: the pieces with the
      separators between them give back the input. */
  lemma {:induction false} SplitOnCharsJoin(s: string, seps: set<char>)
    ensures |SplitOnChars(s, seps)| == |SplitSeps(s, seps)| + 1
    ensures Interleave(SplitOnChars(s, seps), SplitSeps(s, seps)) == s
    decreases |s|
  {
    var i := FirstIn(s, seps);
    if i < |s| {
      SplitOnCharsJoin(s[i + 1..], seps);
      InterleaveCons(s[..i], [s[i]], SplitOnChars(s[i + 1..], seps), SplitSeps(s[i + 1..], seps));
      assert s == s[..i] + [s[i]] + s[i + 1..];
    }
  }

  /** `s.split()`: the maximal runs of non-whitespace characters. */
  function Words(s: string): (ws: seq<string>)
    decreases |s|
  {
    var t := TrimLeft(s);
    if t == [] then []
    else
      var n := WordEnd(t);
      [t[..n]] + Words(t[n..])
  }

  /** Every word is non-empty and holds no whitespace. */
  lemma {:induction false} WordsAreWords(s: string)
    ensures forall k :: 0 <= k < |Words(s)| ==> Words(s)[k] != [] && NoSpace(Words(s)[k])
    decreases |s|
  {
    var t := TrimLeft(s);
    if t != [] {
      var n := WordEnd(t);
      var w, rest := t[..n], Words(t[n..]);
      WordsAreWords(t[n..]);
      forall j | 0 <= j < |w| ensures !IsSpace(w[j]) { assert w[j] == t[j]; }
      assert Words(s) == [w] + rest;
      ConsWords(w, rest);
    }
  }

  lemma ConsWords(w: string, rest: seq<string>)
    requires w != [] && NoSpace(w)
    requires forall k :: 0 <= k < |rest| ==> rest[k] != [] && NoSpace(rest[k])
    ensures forall k :: 0 <= k < |[w] + rest| ==> ([w] + rest)[k] != [] && NoSpace(([w] + rest)[k])
  {
    forall k | 0 < k < |[w] + rest| ensures ([w] + rest)[k] == rest[k - 1] { }
  }

  /** The length of the leading run of non-whitespace characters. */
  function WordEnd(s: string): (n: nat)
    ensures n <= |s| && forall j :: 0 <= j < n ==> !IsSpace(s[j])
    ensures n < |s| ==> IsSpace(s[n])
    ensures s != [] && !IsSpace(s[0]) ==> n >= 1
  {
    if s == [] || IsSpace(s[0]) then 0 else 1 + WordEnd(s[1..])
  }

  /** `sep.join(parts)`. */
  function JoinWith(parts: seq<string>, sep: string): string {
    if parts == [] then []
    else if |parts| == 1 then parts[0]
    else parts[0] + sep + JoinWith(parts[1..], sep)
  }

  /** The two-character separator `ab` occurs at position `j` of `s`. */
  predicate PairAt(s: string, a: char, b: char, j: int) {
    0 <= j && j + 1 < |s| && s[j] == a && s[j + 1] == b
  }

  /** The position of the first occurrence of `ab` at or after `from`, or
      |s| when there is none. */
  function PairFrom(s: string, a: char, b: char, from: nat): (i: nat)
    requires from <= |s|
    ensures from <= i <= |s|
    ensures i < |s| ==> PairAt(s, a, b, i)
    ensures forall j :: from <= j < i ==> !PairAt(s, a, b, j)
    decreases |s| - from
  {
    if from + 1 >= |s| then |s|
    else if PairAt(s, a, b, from) then from
    else PairFrom(s, a, b, from + 1)
  }

  /** `re.split(ab, s, maxsplit=n)` for a literal two-character separator:
      split at its first `n` occurrences, left to right. */
  function SplitMax(s: string, a: char, b: char, n: nat): (parts: seq<string>)
    ensures 1 <= |parts| <= n + 1
    decreases n
  {
    var i := PairFrom(s, a, b, 0);
    if n == 0 || i == |s| then [s]
    else [s[..i]] + SplitMax(s[i + 2..], a, b, n - 1)
  }

  /** Joining the pieces with the separator gives back the input. */
  lemma {:induction false} SplitMaxJoin(s: string, a: char, b: char, n: nat)
    ensures JoinWith(SplitMax(s, a, b, n), [a, b]) == s
    decreases n
  {
    var i := PairFrom(s, a, b, 0);
    if n > 0 && i < |s| {
      var rest := SplitMax(s[i + 2..], a, b, n - 1);
      SplitMaxJoin(s[i + 2..], a, b, n - 1);
      assert SplitMax(s, a, b, n) == [s[..i]] + rest;
      JoinCons(s[..i], rest, [a, b]);
      assert s == s[..i] + [a, b] + s[i + 2..];
    }
  }

  lemma JoinCons(x: string, rest: seq<string>, sep: string)
    requires rest != []
    ensures JoinWith([x] + rest, sep) == x + sep + JoinWith(rest, sep)
  {
    assert ([x] + rest)[1..] == rest;
  }

  /** A word followed by nothing or by whitespace ends where the word does. */
  lemma {:induction false} WordEndAppend(w: string, t: string)
    requires NoSpace(w)
    requires t == [] || IsSpace(t[0])
    ensures WordEnd(w + t) == |w|
    decreases |w|
  {
    if w != [] {
      assert (w + t)[1..] == w[1..] + t;
      WordEndAppend(w[1..], t);
    } else {
      assert w + t == t;
    }
  }

  /** Splitting non-empty, whitespace-free words joined by single spaces
      gives back the words. */
  lemma {:induction false} WordsJoin(ws: seq<string>)
    requires forall k :: 0 <= k < |ws| ==> ws[k] != [] && NoSpace(ws[k])
    ensures Words(JoinWith(ws, " ")) == ws
  {
    if |ws| == 1 {
      var w := ws[0];
      WordEndAppend(w, []);
      assert w + [] == w && w[|w|..] == [];
    } else if |ws| > 1 {
      var w, rest := ws[0], JoinWith(ws[1..], " ");
      var s := w + " " + rest;
      assert JoinWith(ws, " ") == s;
      WordsJoin(ws[1..]);
      assert ws[1..][0] == ws[1];
      assert rest != [] && !IsSpace(rest[0]) by {
        JoinFirst(ws[1..]);
      }
      assert s == w + (" " + rest);
      WordEndAppend(w, " " + rest);
      assert s[|w|..] == " " + rest;
      assert (" " + rest)[1..] == rest;
      assert [w] + ws[1..] == ws;
    }
  }

  /** The join of non-empty words starts with the first word's first character. */
  lemma {:induction false} JoinFirst(ws: seq<string>)
    requires ws != [] && ws[0] != []
    ensures JoinWith(ws, " ") != [] && JoinWith(ws, " ")[0] == ws[0][0]
  {
    if |ws| > 1 {
      assert JoinWith(ws, " ") == ws[0] + " " + JoinWith(ws[1..], " ");
    }
  }

  /** Positions `i - 1` and `i` of `s` both hold `c`. */
  predicate DoubledAt(s: string, c: char, i: int)
    requires 0 < i < |s|
  {
    s[i - 1] == c && s[i] == c
  }

  /** No two consecutive copies of `c`. */
  predicate NoAdjacent(s: string, c: char) {
    forall i :: 0 < i < |s| ==> !DoubledAt(s, c, i)
  }

  /** The character at `i`, if whitespace, is a single space between two
      non-whitespace characters. */
  predicate SpaceSettledAt(s: string, i: int)
    requires 0 <= i < |s|
  {
    IsSpace(s[i]) ==> s[i] == ' ' && 0 < i < |s| - 1 && !IsSpace(s[i - 1]) && !IsSpace(s[i + 1])
  }

  /** No leading or trailing whitespace, and every whitespace character a
      single space between two non-whitespace characters. */
  predicate Normalized(s: string) {
    forall i :: 0 <= i < |s| ==> SpaceSettledAt(s, i)
  }

  /** The end of the run of whitespace starting at `from`. */
  function SpaceRunEnd(s: string, from: nat): (e: nat)
    requires from <= |s|
    ensures from <= e <= |s|
    ensures forall j :: from <= j < e ==> IsSpace(s[j])
    ensures e < |s| ==> !IsSpace(s[e])
    decreases |s| - from
  {
    if from == |s| || !IsSpace(s[from]) then from else SpaceRunEnd(s, from + 1)
  }
}
