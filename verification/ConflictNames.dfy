/** Names of conflict copies: `file.txt` becomes `file (2).txt`, `file (2).txt` becomes
    `file (3).txt`. A splitter takes a name apart into base, extension and index; the printer puts
    an index back. Indices are 32-bit unsigned: running past the last one is an overflow, reported
    here as `None`. */
module ConflictNames {
  import opened Wrappers

  const U32_MAX: nat := 0xFFFF_FFFF

  datatype Parts = Parts(base: string, ext: string, index: Option<nat>)

  const COMPOUND: seq<string> := [".tar.gz", ".tar.bz2", ".tar.xz", ".tar.zst"]

  predicate IsDigit(c: char) { '0' <= c <= '9' }

  predicate AllDigits(s: string) { forall i :: 0 <= i < |s| ==> IsDigit(s[i]) }

  function Digits(n: nat): (s: string)
    ensures s != "" && AllDigits(s)
  {
    var last := [('0' as int + n % 10) as char];
    if n < 10 then last else Digits(n / 10) + last
  }

  function DigitsValue(s: string): nat
    requires AllDigits(s)
  {
    if s == "" then 0
    else 10 * DigitsValue(s[..|s| - 1]) + (s[|s| - 1] as int - '0' as int)
  }

  function ParseU32(s: string): Option<nat>
    requires AllDigits(s)
  {
    if DigitsValue(s) <= U32_MAX then Some(DigitsValue(s)) else None
  }

  predicate EndsWith(s: string, suffix: string) {
    |suffix| <= |s| && s[|s| - |suffix|..] == suffix
  }

  /** The last dot of `s`, or -1. */
  function LastDot(s: string): (i: int)
    ensures -1 <= i < |s|
    ensures i >= 0 ==> s[i] == '.'
    ensures forall k :: i < k < |s| ==> s[k] != '.'
  {
    if s == "" then -1
    else if s[|s| - 1] == '.' then |s| - 1
    else LastDot(s[..|s| - 1])
  }

  predicate OpensAt(s: string, i: int) {
    0 <= i && i + 1 < |s| && s[i] == ' ' && s[i + 1] == '('
  }

  /** The last occurrence of a space followed by an opening parenthesis, or -1. */
  function LastOpen(s: string): (i: int)
    ensures i == -1 || OpensAt(s, i)
    ensures forall k :: i < k ==> !OpensAt(s, k)
  {
    if |s| < 2 then -1
    else if OpensAt(s, |s| - 2) then |s| - 2
    else
      var i := LastOpen(s[..|s| - 1]);
      assert forall k :: k < |s| - 2 ==> OpensAt(s, k) == OpensAt(s[..|s| - 1], k);
      i
  }

  function CompoundSuffix(name: string): Option<string> {
    if EndsWith(name, COMPOUND[0]) then Some(COMPOUND[0])
    else if EndsWith(name, COMPOUND[1]) then Some(COMPOUND[1])
    else if EndsWith(name, COMPOUND[2]) then Some(COMPOUND[2])
    else if EndsWith(name, COMPOUND[3]) then Some(COMPOUND[3])
    else None
  }

  function SplitExtension(name: string): (parts: (string, string))
    ensures parts.0 + parts.1 == name
  {
    match CompoundSuffix(name)
    case Some(suffix) => (name[..|name| - |suffix|], suffix)
    case None =>
      var dot := LastDot(name);
      if dot > 0 then (name[..dot], name[dot..]) else (name, "")
  }

  function StripNumericSuffix(stem: string): Option<(string, nat)> {
    var open := LastOpen(stem);
    if open < 0 || open + 2 > |stem| - 1 then None
    else
      var suffix := stem[open + 2..|stem| - 1];
      if stem[|stem| - 1] != ')' || suffix == "" || !AllDigits(suffix) then None
      else
        match ParseU32(suffix)
        case None => None
        case Some(index) => Some((stem[..open], index))
  }

  function SplitConflictName(name: string): Parts {
    var (stem, ext) := SplitExtension(name);
    match StripNumericSuffix(stem)
    case Some((base, index)) => Parts(base, ext, Some(index))
    case None => Parts(stem, ext, None)
  }

  function Numbered(base: string, index: nat): string { base + " (" + Digits(index) + ")" }

  function Candidate(base: string, index: nat, ext: string): string { Numbered(base, index) + ext }

  function FirstIndex(parts: Parts): nat {
    (match parts.index case Some(i) => i case None => 1) + 1
  }

  /** The first free index at or after `index` that still fits 32 bits. */
  function FreeIndex(base: string, ext: string, used: set<string>, index: nat): (r: Option<nat>)
    ensures r.Some? ==> index <= r.value <= U32_MAX && Candidate(base, r.value, ext) !in used
    ensures forall j :: index <= j <= U32_MAX && (r.None? || j < r.value) ==> Candidate(base, j, ext) in used
    decreases U32_MAX + 1 - index
  {
    if index > U32_MAX then None
    else if Candidate(base, index, ext) !in used then Some(index)
    else FreeIndex(base, ext, used, index + 1)
  }

  function NextConflictName(name: string, used: set<string>): Option<string> {
    var parts := SplitConflictName(name);
    match FreeIndex(parts.base, parts.ext, used, FirstIndex(parts))
    case Some(i) => Some(Candidate(parts.base, i, parts.ext))
    case None => None
  }

  /** The search loop. It stops at the first free name and fails only by overflow. */
  method FindConflictName(name: string, used: set<string>) returns (r: Option<string>)
    ensures r == NextConflictName(name, used)
  {
    var parts := SplitConflictName(name);
    var index := FirstIndex(parts);
    while index <= U32_MAX
      invariant FreeIndex(parts.base, parts.ext, used, FirstIndex(parts)) == FreeIndex(parts.base, parts.ext, used, index)
      decreases U32_MAX + 1 - index
    {
      var candidate := Candidate(parts.base, index, parts.ext);
      if candidate !in used {
        return Some(candidate);
      }
      index := index + 1;
    }
    return None;
  }

  // ---- The printer and the splitter undo each other ----

  lemma {:induction false} DigitsRoundTrip(n: nat)
    ensures DigitsValue(Digits(n)) == n
  {
    var s := Digits(n);
    if n >= 10 {
      DigitsRoundTrip(n / 10);
      assert s[..|s| - 1] == Digits(n / 10);
    }
  }

  lemma CandidatesDiffer(base: string, ext: string, i: nat, j: nat)
    requires i != j
    ensures Candidate(base, i, ext) != Candidate(base, j, ext)
  {
    var a, b := Candidate(base, i, ext), Candidate(base, j, ext);
    if a == b {
      assert |Digits(i)| == |Digits(j)|;
      assert Digits(i) == a[|base| + 2..|base| + 2 + |Digits(i)|];
      assert Digits(j) == b[|base| + 2..|base| + 2 + |Digits(j)|];
      DigitsRoundTrip(i);
      DigitsRoundTrip(j);
    }
  }

  lemma StripOfNumbered(base: string, i: nat)
    requires i <= U32_MAX
    ensures StripNumericSuffix(Numbered(base, i)) == Some((base, i))
  {
    var stem := Numbered(base, i);
    var open := |base|;
    assert OpensAt(stem, open);
    assert forall k :: open < k < |stem| - 1 ==> stem[k] == '(' || IsDigit(stem[k]);
    assert forall k :: open < k ==> !OpensAt(stem, k);
    assert LastOpen(stem) == open;
    assert stem[open + 2..|stem| - 1] == Digits(i);
    assert stem[..open] == base;
    DigitsRoundTrip(i);
  }

  /** A closing parenthesis is never the last character before a compound suffix's inner dot. */
  lemma NoCompound(stem: string, ext: string)
    requires EndsWith(stem, ")")
    requires ext == "" || (ext[0] == '.' && forall k :: 0 < k < |ext| ==> ext[k] != '.')
    ensures CompoundSuffix(stem + ext) == None
  {
    forall c | c in COMPOUND
      ensures !EndsWith(stem + ext, c)
    {
      assert c[3] == 'r' && c[4] == '.' && forall k :: 4 < k < |c| ==> c[k] != '.';
      NotThisCompound(stem, ext, c);
    }
  }

  lemma NotThisCompound(stem: string, ext: string, c: string)
    requires EndsWith(stem, ")")
    requires ext == "" || (ext[0] == '.' && forall k :: 0 < k < |ext| ==> ext[k] != '.')
    requires |c| > 5 && c[3] == 'r' && c[4] == '.' && c[|c| - 1] != ')' && forall k :: 4 < k < |c| ==> c[k] != '.'
    ensures !EndsWith(stem + ext, c)
  {
    var name := stem + ext;
    assert name[|stem| - 1] == ')';
    if |c| <= |name| {
      var tail, cut := name[|name| - |c|..], |name| - |c|;
      assert forall k :: 0 <= k < |c| ==> tail[k] == name[cut + k];
      assert tail[4] == name[cut + 4];
      assert forall k :: |stem| < k < |name| ==> name[k] != '.';
      if cut < |stem| {
        assert tail[|stem| - 1 - cut] == ')';
        assert ext != "" ==> tail[|stem| - cut] == '.';
      }
    }
  }

  lemma DotOfNumbered(base: string, i: nat, ext: string)
    requires ext != "" ==> ext[0] == '.' && forall k :: 0 < k < |ext| ==> ext[k] != '.'
    requires ext == "" ==> forall k :: 0 < k < |base| ==> base[k] != '.'
    ensures ext != "" ==> LastDot(Candidate(base, i, ext)) == |Numbered(base, i)|
    ensures ext == "" ==> LastDot(Candidate(base, i, ext)) <= 0
  {
    var numbered, cand := Numbered(base, i), Candidate(base, i, ext);
    if ext == "" {
      assert forall k :: |base| <= k < |numbered| ==> numbered[k] in " ()" || IsDigit(numbered[k]);
      assert forall k :: 0 < k < |cand| ==> cand[k] != '.';
    } else {
      assert cand[|numbered|] == '.';
      assert forall k :: |numbered| < k < |cand| ==> cand[k] == ext[k - |numbered|];
    }
  }

  lemma ExtensionOfNumbered(name: string, base: string, i: nat)
    requires SplitConflictName(name).base == base
    ensures SplitExtension(Candidate(base, i, SplitConflictName(name).ext)) == (Numbered(base, i), SplitConflictName(name).ext)
  {
    var (stem, ext) := SplitExtension(name);
    var numbered := Numbered(base, i);
    assert (numbered + ext)[..|numbered|] == numbered && (numbered + ext)[|numbered|..] == ext;
    assert EndsWith(numbered, ")");
    if CompoundSuffix(name).Some? {
      CompoundStays(numbered, ext);
    } else {
      NoCompound(numbered, ext);
      assert base <= stem;
      DotOfNumbered(base, i, ext);
    }
  }

  lemma SameTail(name: string, a: string, b: string)
    requires EndsWith(name, a) && EndsWith(name, b) && |a| >= 2 && |b| >= 2
    ensures a[|a| - 1] == b[|b| - 1] && a[|a| - 2] == b[|b| - 2]
  {
    assert a[|a| - 1] == name[|name| - 1] && a[|a| - 2] == name[|name| - 2];
    assert b[|b| - 1] == name[|name| - 1] && b[|b| - 2] == name[|name| - 2];
  }

  lemma TailsDiffer(i: nat, j: nat)
    requires i < 4 && j < 4
    ensures |COMPOUND[i]| >= 2 && |COMPOUND[j]| >= 2
    ensures var a, b := COMPOUND[i], COMPOUND[j];
            a[|a| - 1] == b[|b| - 1] && a[|a| - 2] == b[|b| - 2] ==> i == j
  {
  }

  lemma OneCompound(name: string, i: nat, j: nat)
    requires i < 4 && j < 4 && EndsWith(name, COMPOUND[i]) && EndsWith(name, COMPOUND[j])
    ensures i == j
  {
    hide EndsWith;
    TailsDiffer(i, j);
    SameTail(name, COMPOUND[i], COMPOUND[j]);
  }

  lemma CompoundStays(stem: string, ext: string)
    requires ext in COMPOUND
    ensures CompoundSuffix(stem + ext) == Some(ext)
  {
    var name := stem + ext;
    assert EndsWith(name, ext);
    hide EndsWith;
    var i :| 0 <= i < |COMPOUND| && COMPOUND[i] == ext;
    assert |COMPOUND| == 4;
    forall j | 0 <= j < 4 && EndsWith(name, COMPOUND[j])
      ensures i == j
    {
      OneCompound(name, i, j);
    }
    assert i == 0 || i == 1 || i == 2 || i == 3;
  }

  /** Splitting a printed candidate gives back the base, the extension and the index, for every
      base and extension that splitting any name can produce and every 32-bit index. */
  lemma PrintThenSplit(name: string, i: nat)
    requires i <= U32_MAX
    ensures var p := SplitConflictName(name);
            SplitConflictName(Candidate(p.base, i, p.ext)) == Parts(p.base, p.ext, Some(i))
  {
    var p := SplitConflictName(name);
    ExtensionOfNumbered(name, p.base, i);
    StripOfNumbered(p.base, i);
  }

  // ---- What the search returns ----

  /** The chosen name is free, differs from the input, and carries the least free index above the
      input's own (above 1 when the input has none). */
  lemma NextNameIsLeastFree(name: string, used: set<string>)
    requires NextConflictName(name, used).Some?
    ensures var p, r := SplitConflictName(name), NextConflictName(name, used).value;
            && r !in used && r != name
            && exists i: nat ::
                 && r == Candidate(p.base, i, p.ext)
                 && SplitConflictName(r) == Parts(p.base, p.ext, Some(i))
                 && FirstIndex(p) <= i <= U32_MAX
                 && (forall j :: FirstIndex(p) <= j < i ==> Candidate(p.base, j, p.ext) in used)
  {
    var p := SplitConflictName(name);
    var i := FreeIndex(p.base, p.ext, used, FirstIndex(p)).value;
    PrintThenSplit(name, i);
    assert NextConflictName(name, used).value == Candidate(p.base, i, p.ext);
  }

  /** A conflict copy gets an ordinary name: no slash appears that the input did not have. */
  lemma NextNameHasNoSlash(name: string, used: set<string>)
    requires '/' !in name && NextConflictName(name, used).Some?
    ensures '/' !in NextConflictName(name, used).value && NextConflictName(name, used).value != ""
  {
    var (stem, ext) := SplitExtension(name);
    var p := SplitConflictName(name);
    assert p.base <= stem;
    assert stem + ext == name;
    assert '/' !in stem && '/' !in ext by {
      assert forall i :: 0 <= i < |stem| ==> stem[i] == name[i];
      assert forall i :: 0 <= i < |ext| ==> ext[i] == name[|stem| + i];
    }
    assert '/' !in p.base;
    var i := FreeIndex(p.base, p.ext, used, FirstIndex(p)).value;
    assert '/' !in Digits(i);
  }

  lemma {:induction false} FreeIndexWithin(base: string, ext: string, used: set<string>, left: set<string>, index: nat)
    requires index + |left| <= U32_MAX
    requires forall j :: index <= j && Candidate(base, j, ext) in used ==> Candidate(base, j, ext) in left
    ensures FreeIndex(base, ext, used, index).Some?
    ensures FreeIndex(base, ext, used, index).value <= index + |left|
    decreases |left|
  {
    var c := Candidate(base, index, ext);
    if c in used {
      assert c in left;
      forall j | index + 1 <= j && Candidate(base, j, ext) in used
        ensures Candidate(base, j, ext) in left - {c}
      {
        CandidatesDiffer(base, ext, index, j);
      }
      assert |left - {c}| == |left| - 1;
      FreeIndexWithin(base, ext, used, left - {c}, index + 1);
    }
  }

  /** Pigeonhole: at most `|used| + 1` candidates are tried, and no index overflows when the range
      of that many candidates fits 32 bits. */
  lemma SearchIsBounded(name: string, used: set<string>)
    requires FirstIndex(SplitConflictName(name)) + |used| <= U32_MAX
    ensures var p := SplitConflictName(name);
            var r := FreeIndex(p.base, p.ext, used, FirstIndex(p));
            r.Some? && r.value <= FirstIndex(p) + |used| && NextConflictName(name, used).Some?
  {
    var p := SplitConflictName(name);
    FreeIndexWithin(p.base, p.ext, used, used, FirstIndex(p));
  }

  lemma NextWithNothingUsed(name: string, p: Parts)
    requires SplitConflictName(name) == p && FirstIndex(p) <= U32_MAX
    ensures NextConflictName(name, {}) == Some(Candidate(p.base, FirstIndex(p), p.ext))
  {
  }

  function Renumbered(name: string, times: nat): Option<string> {
    if times == 0 then Some(name)
    else
      match Renumbered(name, times - 1)
      case None => None
      case Some(n) => NextConflictName(n, {})
  }

  function Kth(p: Parts, k: nat): string
    requires k > 0
  {
    Candidate(p.base, FirstIndex(p) + k - 1, p.ext)
  }

  lemma KthIsNext(name: string, p: Parts, k: nat)
    requires SplitConflictName(name) == p && k > 1
    requires FirstIndex(p) + k - 1 <= U32_MAX
    ensures NextConflictName(Kth(p, k - 1), {}) == Some(Kth(p, k))
  {
    hide SplitConflictName, NextConflictName, Candidate;
    var last: nat := FirstIndex(p) + k - 2;
    PrintThenSplit(name, last);
    NextWithNothingUsed(Kth(p, k - 1), Parts(p.base, p.ext, Some(last)));
  }

  /** Repeated conflicts on one file count upward and never nest suffixes. */
  lemma {:induction false} RepeatedConflictsCountUp(name: string, times: nat)
    requires times > 0
    requires FirstIndex(SplitConflictName(name)) + times - 1 <= U32_MAX
    ensures Renumbered(name, times) == Some(Kth(SplitConflictName(name), times))
  {
    var p := SplitConflictName(name);
    if times == 1 {
      NextWithNothingUsed(name, p);
      RenumberedStep(name, times, name);
    } else {
      RepeatedConflictsCountUp(name, times - 1);
      KthIsNext(name, p, times);
      RenumberedStep(name, times, Kth(p, times - 1));
    }
  }

  lemma RenumberedStep(name: string, times: nat, previous: string)
    requires times > 0 && Renumbered(name, times - 1) == Some(previous)
    ensures Renumbered(name, times) == NextConflictName(previous, {})
  {
  }

  /** A one-letter name gets the suffix ` (2)` when that is free. */
  lemma LetterGetsTwo(c: char, used: set<string>)
    requires c != '.' && [c] + " (2)" !in used
    ensures NextConflictName([c], used) == Some([c] + " (2)")
  {
    var name := [c];
    assert CompoundSuffix(name).None?;
    assert LastDot(name) < 0;
    assert SplitExtension(name) == (name, "");
    assert SplitConflictName(name) == Parts(name, "", None);
    assert Digits(2) == "2";
    assert Candidate(name, 2, "") == [c] + " (2)";
  }

  /** How a numbered stem is put together. */
  lemma StrippedStem(stem: string)
    requires StripNumericSuffix(stem).Some?
    ensures var base := StripNumericSuffix(stem).value.0;
            |base| + 3 < |stem| && base <= stem && stem[|stem| - 1] == ')'
            && forall k :: |base| + 2 <= k < |stem| - 1 ==> IsDigit(stem[k])
  {
    var open := LastOpen(stem);
    var suffix := stem[open + 2..|stem| - 1];
    assert forall k :: open + 2 <= k < |stem| - 1 ==> stem[k] == suffix[k - open - 2];
  }

  /** The chosen name is never a beginning of the old one. */
  lemma NextNameIsNoPrefix(name: string, used: set<string>)
    requires NextConflictName(name, used).Some?
    ensures !(NextConflictName(name, used).value <= name)
  {
    NextNameIsLeastFree(name, used);
    var p, next := SplitConflictName(name), NextConflictName(name, used).value;
    var i := FreeIndex(p.base, p.ext, used, FirstIndex(p)).value;
    var (stem, ext) := SplitExtension(name);
    assert next == Candidate(p.base, i, p.ext) && p.ext == ext && name == stem + ext;
    NumberedIsNoPrefix(name, stem, p.base, i, ext);
  }

  lemma NumberedIsNoPrefix(name: string, stem: string, base: string, i: nat, ext: string)
    requires name == stem + ext && Candidate(base, i, ext) != name
    requires match StripNumericSuffix(stem) case Some((b, _)) => b == base case None => base == stem
    ensures !(Candidate(base, i, ext) <= name)
  {
    var next, d := Candidate(base, i, ext), |Digits(i)|;
    assert |next| == |base| + 3 + d + |ext|;
    assert next[|base| + 2 + d] == ')';
    if StripNumericSuffix(stem).Some? {
      StrippedStem(stem);
      var m := |stem| - |base| - 3;
      if d < m {
        assert IsDigit(name[|base| + 2 + d]) by { assert name[|base| + 2 + d] == stem[|base| + 2 + d]; }
      } else {
        assert |next| >= |name|;
      }
    }
  }

  /** More names in use do not change the choice as long as the chosen one stays free. */
  lemma ChoiceIsStable(name: string, used: set<string>, more: set<string>)
    requires used <= more && NextConflictName(name, used).Some? && NextConflictName(name, used).value !in more
    ensures NextConflictName(name, more) == NextConflictName(name, used)
  {
    var p := SplitConflictName(name);
    var i := FreeIndex(p.base, p.ext, used, FirstIndex(p)).value;
    var r := FreeIndex(p.base, p.ext, more, FirstIndex(p));
    assert Candidate(p.base, i, p.ext) !in more;
    assert r.Some? && r.value <= i;
    assert Candidate(p.base, r.value, p.ext) !in used;
  }

  /** With fewer names in use there is still a choice, and it is the same one if it was free before. */
  lemma FewerNamesStillChoose(name: string, used: set<string>, fewer: set<string>)
    requires fewer <= used && NextConflictName(name, used).Some?
    ensures NextConflictName(name, fewer).Some?
    ensures NextConflictName(name, fewer).value !in used ==> NextConflictName(name, fewer) == NextConflictName(name, used)
  {
    var p := SplitConflictName(name);
    var i, r := FreeIndex(p.base, p.ext, used, FirstIndex(p)).value, FreeIndex(p.base, p.ext, fewer, FirstIndex(p));
    assert Candidate(p.base, i, p.ext) !in fewer;
    assert r.Some? && r.value <= i;
    assert Candidate(p.base, r.value, p.ext) !in used ==> i <= r.value;
  }
}
