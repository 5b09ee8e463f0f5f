/**
 * The pieces of Python string semantics the scripts rely on: slicing with
 * clamped bounds, `sep.join(parts)` and the substring test `t in s`.
 */
module PyText {

  /** Python's `s[i:j]` for non-negative bounds: bounds past the end are clamped. */
  function Slice(s: string, i: nat, j: nat): (r: string)
    ensures i <= j <= |s| ==> r == s[i..j]
    ensures |s| <= i || j <= i ==> r == ""
    ensures i <= |s| < j ==> r == s[i..]
  {
    var lo := if i < |s| then i else |s|;
    var hi := if j < |s| then j else |s|;
    if lo < hi then s[lo..hi] else ""
  }

  /** Python's `s[i:]`. */
  function From(s: string, i: nat): (r: string)
    ensures i <= |s| ==> r == s[i..]
    ensures |s| <= i ==> r == ""
  {
    if i < |s| then s[i..] else ""
  }

  /** Python's `sep.join(parts)`. */
  function Join(parts: seq<string>, sep: string): (r: string)
    ensures parts == [] ==> r == ""
    ensures |parts| > 0 ==> parts[0] <= r
  {
    if |parts| == 0 then ""
    else if |parts| == 1 then parts[0]
    else parts[0] + sep + Join(parts[1..], sep)
  }

  /** `t` occurs in `s` starting at position `i`. */
  predicate OccursAt(s: string, t: string, i: nat)
  {
    i + |t| <= |s| && s[i..i + |t|] == t
  }

  /** Python's substring test `t in s`. */
  predicate Contains(s: string, t: string)
    ensures Contains(s, t) ==> |t| <= |s|
  {
    exists i | 0 <= i <= |s| - |t| :: OccursAt(s, t, i)
  }

  /** Position `i` of `s` holds `a` and position `i + 1` holds `b`. */
  predicate PairAt(s: string, a: char, b: char, i: nat)
  {
    i + 1 < |s| && s[i] == a && s[i + 1] == b
  }

  /** Some position of `s` holds `a` immediately followed by `b`. */
  predicate HasPair(s: string, a: char, b: char)
  {
    exists i | 0 <= i < |s| - 1 :: PairAt(s, a, b, i)
  }

  lemma ContainsInLeft(x: string, y: string, t: string)
    requires Contains(x, t)
    ensures Contains(x + y, t)
  {
    var i :| 0 <= i <= |x| - |t| && OccursAt(x, t, i);
    assert (x + y)[i..i + |t|] == x[i..i + |t|];
    assert OccursAt(x + y, t, i);
  }

  lemma ContainsInRight(x: string, y: string, t: string)
    requires Contains(y, t)
    ensures Contains(x + y, t)
  {
    var i :| 0 <= i <= |y| - |t| && OccursAt(y, t, i);
    assert (x + y)[|x| + i..|x| + i + |t|] == y[i..i + |t|];
    assert OccursAt(x + y, t, |x| + i);
  }

  lemma ContainsItself(t: string)
    ensures Contains(t, t)
  {
    assert t[0..|t|] == t;
    assert OccursAt(t, t, 0);
  }

  /** Every part of a join is a substring of the joined text. */
  lemma {:induction false} JoinContainsPart(parts: seq<string>, sep: string, k: nat)
    requires k < |parts|
    ensures Contains(Join(parts, sep), parts[k])
  {
    if |parts| == 1 {
      ContainsItself(parts[0]);
    } else if k == 0 {
      ContainsItself(parts[0]);
      ContainsInLeft(parts[0], sep + Join(parts[1..], sep), parts[0]);
      assert parts[0] + (sep + Join(parts[1..], sep)) == Join(parts, sep);
    } else {
      JoinContainsPart(parts[1..], sep, k - 1);
      ContainsInRight(parts[0] + sep, Join(parts[1..], sep), parts[k]);
    }
  }

  /** A substring carries each of its adjacent pairs into the text that contains it. */
  lemma PairOfSubstring(s: string, t: string, j: nat)
    requires Contains(s, t)
    requires j + 1 < |t|
    ensures HasPair(s, t[j], t[j + 1])
  {
    var i :| 0 <= i <= |s| - |t| && OccursAt(s, t, i);
    assert s[i + j] == s[i..i + |t|][j];
    assert s[i + j + 1] == s[i..i + |t|][j + 1];
    assert PairAt(s, t[j], t[j + 1], i + j);
  }

  /** A pair of characters other than the separator never straddles it. */
  lemma PairAcrossSeparator(x: string, c: char, y: string, a: char, b: char)
    requires a != c && b != c
    requires HasPair(x + [c] + y, a, b)
    ensures HasPair(x, a, b) || HasPair(y, a, b)
  {
    var s := x + [c] + y;
    var i :| 0 <= i < |s| - 1 && PairAt(s, a, b, i);
    if i + 1 < |x| {
      assert PairAt(x, a, b, i);
    } else if |x| < i {
      var k := i - |x| - 1;
      assert y[k] == s[i] && y[k + 1] == s[i + 1];
      assert PairAt(y, a, b, k);
    }
  }

  /** A pair found in a join (with a one-character separator foreign to the pair) lies inside one part. */
  lemma {:induction false} PairInJoin(parts: seq<string>, c: char, a: char, b: char)
    requires a != c && b != c
    requires HasPair(Join(parts, [c]), a, b)
    ensures exists k :: 0 <= k < |parts| && HasPair(parts[k], a, b)
  {
    if |parts| == 1 {
      assert HasPair(parts[0], a, b);
    } else {
      PairAcrossSeparator(parts[0], c, Join(parts[1..], [c]), a, b);
      if !HasPair(parts[0], a, b) {
        PairInJoin(parts[1..], c, a, b);
        var k :| 0 <= k < |parts[1..]| && HasPair(parts[1..][k], a, b);
        assert HasPair(parts[k + 1], a, b);
      }
    }
  }

  /**
   * Splitting at the first occurrence of a character that the leading field
   * does not contain: the text before it and the rest are determined.
   */
  lemma {:induction false} SplitAtFirst(a: string, r: string, a': string, r': string, c: char)
    requires c !in a && c !in a'
    requires a + [c] + r == a' + [c] + r'
    ensures a == a' && r == r'
  {
    var w := a + [c] + r;
    assert a != [] ==> w[0] == a[0] && w[0] != c;
    assert a' != [] ==> w[0] == a'[0] && w[0] != c;
    assert a == [] || a' == [] ==> w[0] == c;
    if a == [] && a' == [] {
      assert w == [c] + r == [c] + r';
      assert r == ([c] + r)[1..];
      assert r' == ([c] + r')[1..];
    } else if a != [] && a' != [] {
      assert a[0] == (a + [c] + r)[0] == (a' + [c] + r')[0] == a'[0];
      assert (a + [c] + r)[1..] == a[1..] + [c] + r;
      assert (a' + [c] + r')[1..] == a'[1..] + [c] + r';
      SplitAtFirst(a[1..], r, a'[1..], r', c);
      assert a == [a[0]] + a[1..];
      assert a' == [a'[0]] + a'[1..];
    }
  }
}
