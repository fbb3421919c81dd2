/** The list comprehensions of the modelled scripts: a map, and the
    filters that keep the present values and the non-empty strings. */
module SeqUtil {
  import opened Wrappers

  /** `[f(x) for x in s]`. */
  function Map<A, B>(f: A -> B, s: seq<A>): (r: seq<B>)
    ensures |r| == |s|
  {
    if s == [] then [] else Map(f, s[..|s| - 1]) + [f(s[|s| - 1])]
  }

  lemma {:induction false} MapAt<A, B>(f: A -> B, s: seq<A>, k: nat)
    requires k < |s|
    ensures Map(f, s)[k] == f(s[k])
    decreases |s|
  {
    if k < |s| - 1 {
      MapAt(f, s[..|s| - 1], k);
    }
  }

  lemma {:induction false} MapAppend<A, B>(f: A -> B, a: seq<A>, b: seq<A>)
    ensures Map(f, a + b) == Map(f, a) + Map(f, b)
    decreases |b|
  {
    if b == [] {
      assert a + b == a;
    } else {
      var b' := b[..|b| - 1];
      assert (a + b)[..|a + b| - 1] == a + b';
      MapAppend(f, a, b');
    }
  }

  /** The present values of a sequence of options, in order. */
  function Somes<T>(opts: seq<Option<T>>): (r: seq<T>)
    ensures |r| <= |opts|
  {
    if opts == [] then []
    else
      var last := opts[|opts| - 1];
      Somes(opts[..|opts| - 1]) + (if last.Some? then [last.value] else [])
  }

  lemma {:induction false} SomesAppend<T>(a: seq<Option<T>>, b: seq<Option<T>>)
    ensures Somes(a + b) == Somes(a) + Somes(b)
    decreases |b|
  {
    if b == [] {
      assert a + b == a;
    } else {
      var b' := b[..|b| - 1];
      assert (a + b)[..|a + b| - 1] == a + b';
      SomesAppend(a, b');
    }
  }

  /** Every value kept comes from a present option. */
  lemma {:induction false} SomesFrom<T>(opts: seq<Option<T>>)
    ensures forall k :: 0 <= k < |Somes(opts)| ==> Some(Somes(opts)[k]) in opts
    decreases |opts|
  {
    if opts != [] {
      var front := opts[..|opts| - 1];
      SomesFrom(front);
      forall k | 0 <= k < |Somes(opts)| ensures Some(Somes(opts)[k]) in opts {
        if k < |Somes(front)| {
          assert Somes(opts)[k] == Somes(front)[k];
          assert Some(Somes(front)[k]) in front;
        } else {
          assert opts[|opts| - 1] == Some(Somes(opts)[k]);
        }
      }
    }
  }

  /** The non-empty elements of `parts`, in order. */
  function NonEmpty<T>(parts: seq<seq<T>>): (r: seq<seq<T>>)
    ensures |r| <= |parts|
    ensures forall k :: 0 <= k < |r| ==> r[k] != []
  {
    if parts == [] then []
    else
      var last := parts[|parts| - 1];
      NonEmpty(parts[..|parts| - 1]) + (if last != [] then [last] else [])
  }

  lemma {:induction false} NonEmptyAppend<T>(a: seq<seq<T>>, b: seq<seq<T>>)
    ensures NonEmpty(a + b) == NonEmpty(a) + NonEmpty(b)
    decreases |b|
  {
    if b == [] {
      assert a + b == a;
    } else {
      var b' := b[..|b| - 1];
      assert (a + b)[..|a + b| - 1] == a + b';
      NonEmptyAppend(a, b');
    }
  }

  /** Every element kept is one of the parts. */
  lemma {:induction false} NonEmptyFrom<T>(parts: seq<seq<T>>)
    ensures forall k :: 0 <= k < |NonEmpty(parts)| ==> NonEmpty(parts)[k] in parts
    decreases |parts|
  {
    if parts != [] {
      var front := parts[..|parts| - 1];
      NonEmptyFrom(front);
      forall k | 0 <= k < |NonEmpty(parts)| ensures NonEmpty(parts)[k] in parts {
        if k < |NonEmpty(front)| {
          assert NonEmpty(parts)[k] == NonEmpty(front)[k];
          assert NonEmpty(front)[k] in front;
        } else {
          assert NonEmpty(parts)[k] == parts[|parts| - 1];
        }
      }
    }
  }

  /** One more input adds its value, if present. */
  lemma SomesMapSnoc<A, B>(f: A -> Option<B>, s: seq<A>, i: nat)
    requires i < |s|
    ensures Somes(Map(f, s[..i + 1])) == Somes(Map(f, s[..i])) + (if f(s[i]).Some? then [f(s[i]).value] else [])
  {
    assert s[..i + 1] == s[..i] + [s[i]];
    MapAppend(f, s[..i], [s[i]]);
    SomesAppend(Map(f, s[..i]), Map(f, [s[i]]));
    assert Map(f, [s[i]]) == [f(s[i])];
  }

  /** Every value kept is the present value of one of the inputs. */
  lemma SomesMapFrom<A, B>(f: A -> Option<B>, s: seq<A>)
    ensures forall k :: 0 <= k < |Somes(Map(f, s))| ==> exists j :: 0 <= j < |s| && f(s[j]) == Some(Somes(Map(f, s))[k])
  {
    SomesFrom(Map(f, s));
    forall k | 0 <= k < |Somes(Map(f, s))| ensures exists j :: 0 <= j < |s| && f(s[j]) == Some(Somes(Map(f, s))[k]) {
      assert Some(Somes(Map(f, s))[k]) in Map(f, s);
      var j :| 0 <= j < |s| && Map(f, s)[j] == Some(Somes(Map(f, s))[k]);
      MapAt(f, s, j);
    }
  }

  /** One more input adds its value, if non-empty. */
  lemma NonEmptyMapSnoc<A, T>(f: A -> seq<T>, s: seq<A>, i: nat)
    requires i < |s|
    ensures NonEmpty(Map(f, s[..i + 1])) == NonEmpty(Map(f, s[..i])) + (if f(s[i]) != [] then [f(s[i])] else [])
  {
    assert s[..i + 1] == s[..i] + [s[i]];
    MapAppend(f, s[..i], [s[i]]);
    NonEmptyAppend(Map(f, s[..i]), Map(f, [s[i]]));
    assert Map(f, [s[i]]) == [f(s[i])];
  }

  /** Every element kept is the value of one of the inputs. */
  lemma NonEmptyMapFrom<A, T>(f: A -> seq<T>, s: seq<A>)
    ensures forall k :: 0 <= k < |NonEmpty(Map(f, s))| ==> exists j :: 0 <= j < |s| && f(s[j]) == NonEmpty(Map(f, s))[k]
  {
    NonEmptyFrom(Map(f, s));
    forall k | 0 <= k < |NonEmpty(Map(f, s))| ensures exists j :: 0 <= j < |s| && f(s[j]) == NonEmpty(Map(f, s))[k] {
      assert NonEmpty(Map(f, s))[k] in Map(f, s);
      var j :| 0 <= j < |s| && Map(f, s)[j] == NonEmpty(Map(f, s))[k];
      MapAt(f, s, j);
    }
  }

  /** `s.filter(p)`: the elements satisfying `p`, in order. */
  function Filter<T>(p: T -> bool, s: seq<T>): (r: seq<T>)
    ensures |r| <= |s|
    ensures forall k :: 0 <= k < |r| ==> p(r[k])
  {
    if s == [] then []
    else
      var last := s[|s| - 1];
      Filter(p, s[..|s| - 1]) + (if p(last) then [last] else [])
  }

  lemma {:induction false} FilterAppend<T>(p: T -> bool, a: seq<T>, b: seq<T>)
    ensures Filter(p, a + b) == Filter(p, a) + Filter(p, b)
    decreases |b|
  {
    if b == [] {
      assert a + b == a;
    } else {
      var b' := b[..|b| - 1];
      assert (a + b)[..|a + b| - 1] == a + b';
      FilterAppend(p, a, b');
    }
  }

  /** Every element kept is one of the inputs. */
  lemma {:induction false} FilterFrom<T>(p: T -> bool, s: seq<T>)
    ensures forall k :: 0 <= k < |Filter(p, s)| ==> Filter(p, s)[k] in s
    decreases |s|
  {
    if s != [] {
      var front := s[..|s| - 1];
      FilterFrom(p, front);
      forall k | 0 <= k < |Filter(p, s)| ensures Filter(p, s)[k] in s {
        if k < |Filter(p, front)| {
          assert Filter(p, s)[k] == Filter(p, front)[k];
          assert Filter(p, front)[k] in front;
        } else {
          assert Filter(p, s)[k] == s[|s| - 1];
        }
      }
    }
  }

  /** Every input satisfying `p` is kept. */
  lemma FilterKeeps<T>(p: T -> bool, s: seq<T>, j: nat)
    requires j < |s| && p(s[j])
    ensures s[j] in Filter(p, s)
  {
    assert s == s[..j] + [s[j]] + s[j + 1..];
    FilterAppend(p, s[..j] + [s[j]], s[j + 1..]);
    FilterAppend(p, s[..j], [s[j]]);
    assert Filter(p, [s[j]]) == [s[j]] by {
      assert [s[j]][..0] == [];
    }
  }

  /** The first present value among `f(s[0]), f(s[1]), ...`. */
  function FirstSome<A, B>(f: A -> Option<B>, s: seq<A>): (r: Option<B>)
    ensures r.Some? ==> exists j :: 0 <= j < |s| && f(s[j]) == r
    ensures r.None? ==> forall j :: 0 <= j < |s| ==> f(s[j]).None?
  {
    if s == [] then None
    else if f(s[0]).Some? then f(s[0])
    else FirstSome(f, s[1..])
  }

  /** The first input with a present value decides. */
  lemma {:induction false} FirstSomeAt<A, B>(f: A -> Option<B>, s: seq<A>, i: nat)
    requires i < |s| && f(s[i]).Some?
    requires forall k :: 0 <= k < i ==> f(s[k]).None?
    ensures FirstSome(f, s) == f(s[i])
    decreases i
  {
    if i > 0 {
      assert s[1..][i - 1] == s[i];
      FirstSomeAt(f, s[1..], i - 1);
    }
  }

  /** Filtering keeps a sequence whose every element satisfies `p`. */
  lemma {:induction false} FilterAll<T>(p: T -> bool, s: seq<T>)
    requires forall k :: 0 <= k < |s| ==> p(s[k])
    ensures Filter(p, s) == s
    decreases |s|
  {
    if s != [] {
      FilterAll(p, s[..|s| - 1]);
    }
  }

  /** Filtering drops a sequence of which no element satisfies `p`. */
  lemma {:induction false} FilterNone<T>(p: T -> bool, s: seq<T>)
    requires forall k :: 0 <= k < |s| ==> !p(s[k])
    ensures Filter(p, s) == []
    decreases |s|
  {
    if s != [] {
      FilterNone(p, s[..|s| - 1]);
    }
  }
}
