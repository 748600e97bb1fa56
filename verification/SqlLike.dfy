/** SQLite's LIKE operator as the subtree query uses it: `%` matches any run of characters, `_`
    any single one, and ASCII letters match regardless of case. The query for everything below
    `from` uses the pattern `from/%` with `from` pasted in unescaped. */
module SqlLike {

  function FoldCase(c: char): char {
    if 'A' <= c <= 'Z' then (c as int + 32) as char else c
  }

  predicate SameFolded(a: string, b: string) {
    |a| == |b| && forall i :: 0 <= i < |a| ==> FoldCase(a[i]) == FoldCase(b[i])
  }

  predicate Like(pattern: string, s: string)
    decreases |pattern| + |s|
  {
    if pattern == "" then s == ""
    else if pattern[0] == '%' then Like(pattern[1..], s) || (s != "" && Like(pattern, s[1..]))
    else s != "" && (pattern[0] == '_' || FoldCase(pattern[0]) == FoldCase(s[0])) && Like(pattern[1..], s[1..])
  }

  /** What `path LIKE 'from/%'` selects. */
  predicate LikeBelow(from: string, path: string) { Like(from + "/%", path) }

  predicate NoWildcard(s: string) { '%' !in s && '_' !in s }

  lemma {:induction false} PercentMatchesAll(s: string)
    ensures Like("%", s)
  {
    if s == "" {
      assert Like("%"[1..], s);
    } else {
      PercentMatchesAll(s[1..]);
    }
  }

  lemma {:induction false} LiteralMatchesItself(literal: string, pattern: string, s: string)
    requires Like(pattern, s)
    ensures Like(literal + pattern, literal + s)
  {
    if literal == "" {
      assert literal + pattern == pattern && literal + s == s;
    } else {
      LiteralMatchesItself(literal[1..], pattern, s);
      var p, t := literal + pattern, literal + s;
      assert p[1..] == literal[1..] + pattern && t[1..] == literal[1..] + s;
      if literal[0] == '%' {
        LikeSkip(p, t);
      }
    }
  }

  lemma LikeSkip(pattern: string, s: string)
    requires pattern != "" && pattern[0] == '%' && s != ""
    requires Like(pattern[1..], s[1..])
    ensures Like(pattern, s)
  {
    assert Like(pattern, s[1..]);
  }

  /** Every true descendant is selected. */
  lemma DescendantsAreSelected(from: string, path: string)
    requires from + "/" <= path
    ensures LikeBelow(from, path)
  {
    var rest := path[|from| + 1..];
    PercentMatchesAll(rest);
    LiteralMatchesItself(from + "/", "%", rest);
    assert from + "/" + "%" == from + "/%" && from + "/" + rest == path;
  }

  /** Without wildcards in `from`, what is selected beyond the true descendants are exactly the
      paths whose first part differs from `from/` in letter case only. */
  lemma {:induction false} SelectionWithoutWildcards(from: string, path: string)
    requires NoWildcard(from)
    ensures LikeBelow(from, path) <==> |from| < |path| && SameFolded(from + "/", path[..|from| + 1])
  {
    var pattern := from + "/%";
    if from == "" {
      assert pattern == "/%";
      if path != "" {
        PercentMatchesAll(path[1..]);
        assert pattern[1..] == "%";
      }
    } else {
      assert pattern[0] == from[0] && pattern[1..] == from[1..] + "/%";
      if path != "" {
        SelectionWithoutWildcards(from[1..], path[1..]);
        var a, b := from + "/", from[1..] + "/";
        assert a[1..] == b;
        assert forall i :: 0 < i < |a| ==> a[i] == b[i - 1];
        if |from| < |path| {
          var c, d := path[..|from| + 1], path[1..][..|from|];
          assert forall i :: 0 < i < |c| ==> c[i] == d[i - 1];
          SameFoldedCons(a, b, c, d);
        }
      }
    }
  }

  lemma SameFoldedCons(a: string, b: string, c: string, d: string)
    requires |a| == |b| + 1 && |c| == |d| + 1
    requires forall i :: 0 < i < |a| ==> a[i] == b[i - 1]
    requires forall i :: 0 < i < |c| ==> c[i] == d[i - 1]
    ensures SameFolded(a, c) <==> FoldCase(a[0]) == FoldCase(c[0]) && SameFolded(b, d)
  {
    if SameFolded(a, c) {
      forall i | 0 <= i < |b|
        ensures FoldCase(b[i]) == FoldCase(d[i])
      {
        assert FoldCase(a[i + 1]) == FoldCase(c[i + 1]);
      }
    }
  }
}
