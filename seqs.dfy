/**
 * Sequence helpers shared by the text handling of the HTTP parser and the rule
 * loader: `str::split` on one separator, and the `ends_with` / `contains`
 * tests of the rule matcher.
 */
module Seqs {

  /**
   * `split(sep)`: the pieces between separators, in order; `k` separators
   * give `k + 1` pieces, empty ones included.
   */
  function Split<T(==)>(s: seq<T>, sep: T): (parts: seq<seq<T>>)
    ensures |parts| >= 1
    ensures forall i :: 0 <= i < |parts| ==> sep !in parts[i]
    ensures Join(parts, sep) == s
    decreases |s|
  {
    if s == [] then [[]]
    else
      var rest := Split(s[1..], sep);
      if s[0] == sep then
        assert Join([[]] + rest, sep) == [sep] + Join(rest, sep);
        [[]] + rest
      else
        var parts := [[s[0]] + rest[0]] + rest[1..];
        assert parts[1..] == rest[1..];
        JoinHead(s[0], rest, sep);
        parts
  }

  /** The pieces with `sep` between each two. */
  function Join<T>(parts: seq<seq<T>>, sep: T): seq<T>
    requires |parts| >= 1
    decreases |parts|
  {
    if |parts| == 1 then parts[0] else parts[0] + [sep] + Join(parts[1..], sep)
  }

  lemma {:induction false} JoinHead<T>(x: T, rest: seq<seq<T>>, sep: T)
    requires |rest| >= 1
    ensures Join([[x] + rest[0]] + rest[1..], sep) == [x] + Join(rest, sep)
  {
    var parts := [[x] + rest[0]] + rest[1..];
    assert parts[0] == [x] + rest[0];
    assert parts[1..] == rest[1..];
    if |rest| > 1 {
      var tail := [sep] + Join(rest[1..], sep);
      assert Join(parts, sep) == ([x] + rest[0]) + tail;
      assert Join(rest, sep) == rest[0] + tail;
      assert ([x] + rest[0]) + tail == [x] + (rest[0] + tail);
    }
  }

  /** Splitting undoes joining pieces that hold no separator. */
  lemma {:induction false} SplitJoin<T>(parts: seq<seq<T>>, sep: T)
    requires |parts| >= 1 && forall i :: 0 <= i < |parts| ==> sep !in parts[i]
    ensures Split(Join(parts, sep), sep) == parts
    decreases |parts|, |parts[0]|
  {
    if |parts| == 1 {
      SplitFree(parts[0], sep);
    } else if parts[0] == [] {
      var rest := parts[1..];
      assert Join(parts, sep) == [sep] + Join(rest, sep);
      SplitJoin(rest, sep);
      assert [sep] + Join(rest, sep) != [];
      assert ([sep] + Join(rest, sep))[1..] == Join(rest, sep);
    } else {
      var x := parts[0][0];
      var shorter := [parts[0][1..]] + parts[1..];
      assert shorter[0] == parts[0][1..] && shorter[1..] == parts[1..];
      assert parts[0] == [x] + shorter[0];
      assert parts == [[x] + shorter[0]] + shorter[1..];
      JoinHead(x, shorter, sep);
      SplitJoin(shorter, sep);
      var joined := [x] + Join(shorter, sep);
      assert joined[0] == x && joined[1..] == Join(shorter, sep);
    }
  }

  lemma {:induction false} SplitFree<T>(s: seq<T>, sep: T)
    requires sep !in s
    ensures Split(s, sep) == [s]
    decreases |s|
  {
    if s != [] {
      assert sep !in s[1..];
      SplitFree(s[1..], sep);
      assert [s[0]] + s[1..] == s;
    }
  }

  /** `ends_with`: `t` is a suffix of `s`. */
  predicate EndsWith<T(==)>(s: seq<T>, t: seq<T>)
  {
    |t| <= |s| && s[|s| - |t|..] == t
  }

  /** `contains`: `t` occurs in `s` as a contiguous piece. */
  predicate Contains<T(==)>(s: seq<T>, t: seq<T>)
  {
    exists i :: 0 <= i <= |s| - |t| && OccursAt(s, t, i)
  }

  predicate OccursAt<T(==)>(s: seq<T>, t: seq<T>, i: int)
  {
    0 <= i <= |s| - |t| && s[i..i + |t|] == t
  }

  /** Appending three pieces one by one appends their concatenation. */
  lemma Append3<T>(s: seq<T>, a: seq<T>, b: seq<T>, c: seq<T>)
    ensures s + a + b + c == s + (a + b + c)
  {
    assert s + a + b + c == s + (a + b) + c;
  }

  /** A suffix is in particular a contained piece. */
  lemma SuffixIsContained<T>(s: seq<T>, t: seq<T>)
    requires EndsWith(s, t)
    ensures Contains(s, t)
  {
    assert OccursAt(s, t, |s| - |t|);
  }
}
