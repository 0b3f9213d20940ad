/** The few Python `str` operations the two core files rely on: `split` with a
    one-character separator, `join`, the substring test `t in s`, and `replace`. */
module Strings {

  /** `s.split(sep)`: the maximal pieces of `s` between separators, empty pieces
      included, so there is always at least one piece. */
  function Split(s: string, sep: char): (parts: seq<string>)
    ensures |parts| >= 1
    decreases |s|
  {
    if |s| == 0 then [""]
    else
      var rest := Split(s[1..], sep);
      if s[0] == sep then [""] + rest
      else [[s[0]] + rest[0]] + rest[1..]
  }

  /** `sep.join(parts)`. */
  function Join(parts: seq<string>, sep: char): string
    requires |parts| >= 1
  {
    if |parts| == 1 then parts[0] else parts[0] + [sep] + Join(parts[1..], sep)
  }

  function Last<T>(xs: seq<T>): T
    requires |xs| > 0
  {
    xs[|xs| - 1]
  }

  /** Splitting loses nothing: joining the pieces back gives `s`, and no piece
      holds the separator. */
  lemma {:induction false} SplitJoin(s: string, sep: char)
    ensures Join(Split(s, sep), sep) == s
    ensures forall k :: 0 <= k < |Split(s, sep)| ==> sep !in Split(s, sep)[k]
    decreases |s|
  {
    if |s| > 0 {
      SplitJoin(s[1..], sep);
      var rest := Split(s[1..], sep);
      var parts := Split(s, sep);
      if s[0] == sep {
        assert parts[1..] == rest;
      } else {
        assert parts[0] == [s[0]] + rest[0];
        assert parts[1..] == rest[1..];
        assert s == [s[0]] + s[1..];
        forall k | 0 <= k < |parts| ensures sep !in parts[k] {
          if k > 0 {
            assert parts[k] == rest[k];
          }
        }
      }
    }
  }

  /** `s.split(sep)[0]` is the text before the first separator, or all of `s`
      when there is none. */
  lemma {:induction false} SplitFirst(s: string, sep: char)
    ensures Split(s, sep)[0] <= s
    ensures sep !in Split(s, sep)[0]
    ensures |Split(s, sep)[0]| < |s| ==> s[|Split(s, sep)[0]|] == sep
    decreases |s|
  {
    if |s| > 0 && s[0] != sep {
      SplitFirst(s[1..], sep);
      var p := Split(s[1..], sep)[0];
      assert Split(s, sep)[0] == [s[0]] + p;
      assert s == [s[0]] + s[1..];
      if |p| < |s| - 1 {
        assert s[1..][|p|] == s[|p| + 1];
      }
    }
  }

  /** `q` is what follows the last `sep` of `s`: a separator-free suffix of
      `s`, preceded by a separator unless it is all of `s`. */
  predicate AfterLast(s: string, sep: char, q: string) {
    && |q| <= |s|
    && s[|s| - |q|..] == q
    && sep !in q
    && (|q| < |s| ==> s[|s| - |q| - 1] == sep)
  }

  lemma AfterLastExtend(s: string, sep: char, q: string)
    requires |s| > 0 && AfterLast(s[1..], sep, q)
    requires |q| < |s| - 1 || s[0] == sep
    ensures AfterLast(s, sep, q)
  {
    assert s[1..][|s| - 1 - |q|..] == s[|s| - |q|..];
    if |q| < |s| - 1 {
      assert s[1..][|s| - 1 - |q| - 1] == s[|s| - |q| - 1];
    }
  }

  /** What `SplitLast` states of `s`. */
  predicate LastPiece(s: string, sep: char) {
    AfterLast(s, sep, Last(Split(s, sep))) &&
    (|Split(s, sep)| == 1 <==> |Last(Split(s, sep))| == |s|)
  }

  lemma SplitLastStep(s: string, sep: char)
    requires |s| > 0 && LastPiece(s[1..], sep)
    ensures LastPiece(s, sep)
  {
    var rest := Split(s[1..], sep);
    var q := Last(rest);
    var parts := Split(s, sep);
    if s[0] == sep || |rest| > 1 {
      assert Last(parts) == q && |parts| > 1;
      AfterLastExtend(s, sep, q);
    } else {
      assert parts == [[s[0]] + q];
      assert s[1..][0..] == q;
      assert s[0..] == [s[0]] + q;
      assert sep !in [s[0]] + q;
    }
  }

  /** `s.split(sep)[-1]` is the text after the last separator, and it is all of
      `s` exactly when there is a single piece. */
  lemma {:induction false} SplitLast(s: string, sep: char)
    ensures AfterLast(s, sep, Last(Split(s, sep)))
    ensures |Split(s, sep)| == 1 <==> |Last(Split(s, sep))| == |s|
    decreases |s|
  {
    if |s| > 0 {
      SplitLast(s[1..], sep);
      SplitLastStep(s, sep);
    }
  }

  /** Python's `t in s` for strings: `t` occurs in `s` as a contiguous piece. */
  predicate Contains(s: string, t: string)
    decreases |s|
  {
    t <= s || (|s| > 0 && Contains(s[1..], t))
  }

  /** `t in s` holds exactly when `t` starts at some position of `s`. */
  lemma {:induction false} ContainsSpec(s: string, t: string)
    ensures Contains(s, t) <==> exists i :: 0 <= i <= |s| && t <= s[i..]
    decreases |s|
  {
    assert s[0..] == s;
    if |s| > 0 {
      ContainsSpec(s[1..], t);
      if Contains(s[1..], t) {
        var i :| 0 <= i <= |s[1..]| && t <= s[1..][i..];
        assert s[1..][i..] == s[i + 1..];
      }
      if exists i :: 0 <= i <= |s| && t <= s[i..] {
        var i :| 0 <= i <= |s| && t <= s[i..];
        if i > 0 {
          assert s[1..][i - 1..] == s[i..];
        }
      }
    }
  }

  /** `s.replace(t, n)`: every non-overlapping occurrence of `t`, from left to
      right, replaced by `n`. */
  function Replace(s: string, t: string, n: string): string
    requires |t| > 0
    decreases |s|
  {
    if t <= s then n + Replace(s[|t|..], t, n)
    else if |s| == 0 then ""
    else [s[0]] + Replace(s[1..], t, n)
  }

  /** A prefix in which no occurrence of `t` starts is kept as it is. */
  lemma {:induction false} ReplaceSkip(a: string, b: string, t: string, n: string)
    requires |t| > 0
    requires forall i :: 0 <= i < |a| ==> !(t <= (a + b)[i..])
    ensures Replace(a + b, t, n) == a + Replace(b, t, n)
    decreases |a|
  {
    if |a| > 0 {
      var s := a + b;
      assert !(t <= s) by {
        assert s[0..] == s;
      }
      assert Replace(s, t, n) == [s[0]] + Replace(s[1..], t, n);
      assert s[1..] == a[1..] + b;
      forall i | 0 <= i < |a[1..]| ensures !(t <= (a[1..] + b)[i..]) {
        assert (a[1..] + b)[i..] == s[i + 1..];
      }
      ReplaceSkip(a[1..], b, t, n);
      assert s[0] == a[0] && [a[0]] + a[1..] == a;
    } else {
      assert a + b == b;
    }
  }

  /** A string with no occurrence of `t` is left unchanged. */
  lemma ReplaceAbsent(s: string, t: string, n: string)
    requires |t| > 0
    requires !Contains(s, t)
    ensures Replace(s, t, n) == s
  {
    ContainsSpec(s, t);
    forall i | 0 <= i < |s| ensures !(t <= (s + "")[i..]) {
      assert (s + "")[i..] == s[i..];
    }
    ReplaceSkip(s, "", t, n);
    assert s + "" == s;
  }

  /** The text `t` itself is replaced in full. */
  lemma ReplaceWhole(t: string, n: string)
    requires |t| > 0
    ensures Replace(t, t, n) == n
  {
    assert t[|t|..] == "";
    assert n + "" == n;
  }
}
