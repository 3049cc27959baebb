/**
 * The Python `str` operations the chatbot relies on, over `seq<char>`:
 * `find`, `in`, `split(sep)`, `sep.join(xs)`, `replace`, `strip()`,
 * `startswith` and `lower()`.
 */
module PyStr {
  import opened Wrappers
  import opened Seqs

  /** `pat` occurs in `s` at index `i`. */
  predicate OccursAt(s: string, pat: string, i: int) {
    0 <= i && i + |pat| <= |s| && s[i..i + |pat|] == pat
  }

  /** Python's `pat in s`. */
  predicate Contains(s: string, pat: string) {
    exists i | 0 <= i <= |s| :: OccursAt(s, pat, i)
  }

  /** Occurrences in `s` past index 0 are the occurrences in `s[1..]`, shifted by one. */
  lemma OccursInTail(s: string, pat: string)
    requires |s| >= |pat| && s[..|pat|] != pat
    ensures forall i :: OccursAt(s, pat, i) ==> i >= 1 && OccursAt(s[1..], pat, i - 1)
    ensures forall j :: OccursAt(s[1..], pat, j) ==> OccursAt(s, pat, j + 1)
  {
    forall i | OccursAt(s, pat, i)
      ensures i >= 1 && OccursAt(s[1..], pat, i - 1)
    {
      assert i != 0;
      assert s[1..][i - 1..i - 1 + |pat|] == s[i..i + |pat|];
    }
    forall j | OccursAt(s[1..], pat, j)
      ensures OccursAt(s, pat, j + 1)
    {
      assert s[1..][j..j + |pat|] == s[j + 1..j + 1 + |pat|];
    }
  }

  /** Python's `s.find(pat)`: the first index where `pat` occurs, `None` for -1. */
  function Find(s: string, pat: string): (r: Option<nat>)
    ensures r.Some? ==> r.value + |pat| <= |s|
    decreases |s|
  {
    if |s| < |pat| then None
    else if s[..|pat|] == pat then Some(0)
    else
      match Find(s[1..], pat)
      case None => None
      case Some(k) => Some(k + 1)
  }

  /** `Find` gives the first occurrence, and `None` exactly when there is none. */
  lemma {:induction false} FindSpec(s: string, pat: string)
    ensures Find(s, pat).Some? ==> OccursAt(s, pat, Find(s, pat).value)
    ensures Find(s, pat).Some? ==> forall j :: 0 <= j < Find(s, pat).value ==> !OccursAt(s, pat, j)
    ensures Find(s, pat).None? <==> !Contains(s, pat)
    decreases |s|
  {
    if |s| < |pat| {
    } else if s[..|pat|] == pat {
      assert OccursAt(s, pat, 0);
    } else {
      FindSpec(s[1..], pat);
      OccursInTail(s, pat);
      assert !OccursAt(s, pat, 0);
      match Find(s[1..], pat)
      case None =>
        assert Find(s, pat) == None;
        assert !Contains(s, pat);
      case Some(k) =>
        assert Find(s, pat) == Some(k + 1);
        assert OccursAt(s, pat, k + 1) by {
          assert OccursAt(s[1..], pat, k);
        }
    }
  }

  /** The first occurrence is unique: whoever finds it finds what `Find` finds. */
  lemma FindFirst(s: string, pat: string, i: nat)
    requires OccursAt(s, pat, i)
    requires forall j :: 0 <= j < i ==> !OccursAt(s, pat, j)
    ensures Find(s, pat) == Some(i)
  {
    FindSpec(s, pat);
  }

  /** A string that lacks one of the characters of `pat` does not contain `pat`. */
  lemma MissingCharNotContained(s: string, pat: string, k: nat)
    requires k < |pat| && pat[k] !in s
    ensures !Contains(s, pat)
  {
    forall i | OccursAt(s, pat, i)
      ensures false
    {
    }
  }

  /** Python's `s.split(sep)` for a non-empty separator (an empty one raises, see callers). */
  function Split(s: string, sep: string): (r: seq<string>)
    requires sep != ""
    ensures |r| >= 1
    decreases |s|
  {
    match Find(s, sep)
    case None => [s]
    case Some(i) => [s[..i]] + Split(s[i + |sep|..], sep)
  }

  /**
   * `s.split(sep)[0]` is the text before the first occurrence of `sep`: a
   * prefix of `s` without `sep`, followed in `s` by `sep` unless it is all of `s`.
   */
  lemma FirstPieceOfSplit(s: string, sep: string)
    requires sep != ""
    ensures var p := Split(s, sep)[0];
            |p| <= |s| && p == s[..|p|] && !Contains(p, sep) &&
            (|p| < |s| ==> OccursAt(s, sep, |p|))
  {
    FindSpec(s, sep);
    match Find(s, sep)
    case None =>
    case Some(i) =>
      var p := s[..i];
      forall j | OccursAt(p, sep, j)
        ensures false
      {
        assert s[j..j + |sep|] == p[j..j + |sep|];
        assert OccursAt(s, sep, j);
      }
  }

  /** With no `pat[k]` before index `i + k`, `pat` cannot occur before index `i`. */
  lemma NoOccurrenceBefore(s: string, pat: string, k: nat, i: nat)
    requires k < |pat|
    requires forall j :: 0 <= j < i + k && j < |s| ==> s[j] != pat[k]
    ensures forall j :: 0 <= j < i ==> !OccursAt(s, pat, j)
  {
    forall j | 0 <= j < i
      ensures !OccursAt(s, pat, j)
    {
      if j + |pat| <= |s| {
        var c := s[j..j + |pat|][k];
        assert c == s[j + k] != pat[k];
      }
    }
  }

  /** Python's `sep.join(xs)`. */
  function Join(sep: string, xs: seq<string>): string
    decreases |xs|
  {
    if |xs| == 0 then "" else if |xs| == 1 then xs[0] else xs[0] + sep + Join(sep, xs[1..])
  }

  /** Joining an item in front of at least one more puts the separator between them. */
  lemma JoinCons(sep: string, x: string, xs: seq<string>)
    requires |xs| >= 1
    ensures Join(sep, [x] + xs) == x + sep + Join(sep, xs)
  {
    assert ([x] + xs)[1..] == xs;
  }

  /** The split at the first occurrence, when there is one. */
  lemma SplitAt(s: string, sep: string, i: nat)
    requires sep != "" && Find(s, sep) == Some(i)
    ensures Split(s, sep) == [s[..i]] + Split(s[i + |sep|..], sep)
  {
  }

  /** Joining the pieces of a split with the same separator gives back the string. */
  lemma {:induction false} JoinSplit(s: string, sep: string)
    requires sep != ""
    ensures Join(sep, Split(s, sep)) == s
    decreases |s|
  {
    match Find(s, sep)
    case None =>
    case Some(i) =>
      FindSpec(s, sep);
      var rest := s[i + |sep|..];
      JoinSplit(rest, sep);
      SplitAt(s, sep, i);
      JoinCons(sep, s[..i], Split(rest, sep));
      assert s[i..i + |sep|] == sep;
      assert s == s[..i] + s[i..i + |sep|] + rest;
  }

  /** No piece of a split contains the separator. */
  lemma {:induction false} SplitPiecesLackSep(s: string, sep: string)
    requires sep != ""
    ensures forall p :: p in Split(s, sep) ==> !Contains(p, sep)
    decreases |s|
  {
    FindSpec(s, sep);
    match Find(s, sep)
    case None =>
    case Some(i) =>
      var rest := s[i + |sep|..];
      SplitPiecesLackSep(rest, sep);
      SplitAt(s, sep, i);
      var head := s[..i];
      forall j | 0 <= j && j + |sep| <= |head|
        ensures !OccursAt(head, sep, j)
      {
        assert j < i && !OccursAt(s, sep, j);
        assert head[j..j + |sep|] == s[j..j + |sep|];
      }
      assert !Contains(head, sep);
  }

  /** Appending text cannot move the first occurrence of a pattern that already occurs. */
  lemma FindExtend(a: string, pat: string, u: string, i: nat)
    requires Find(a, pat) == Some(i)
    ensures Find(a + u, pat) == Some(i)
  {
    FindSpec(a, pat);
    var t := a + u;
    assert OccursAt(t, pat, i) by { assert t[i..i + |pat|] == a[i..i + |pat|]; }
    forall j | 0 <= j < i
      ensures !OccursAt(t, pat, j)
    {
      assert !OccursAt(a, pat, j);
      assert t[j..j + |pat|] == a[j..j + |pat|];
    }
    FindFirst(t, pat, i);
  }

  /** The first one-character separator after separator-free text is right after that text. */
  lemma FindAfterFree(a: string, sep: string, b: string)
    requires |sep| == 1 && !Contains(a, sep)
    ensures Find(a + sep + b, sep) == Some(|a|)
  {
    var t := a + sep + b;
    assert OccursAt(t, sep, |a|) by { assert t[|a|..|a| + 1] == sep; }
    forall j | 0 <= j < |a|
      ensures !OccursAt(t, sep, j)
    {
      assert !OccursAt(a, sep, j);
      assert t[j..j + 1] == a[j..j + 1];
    }
    FindFirst(t, sep, |a|);
  }

  /** Separator-free text before a one-character separator is the first piece. */
  lemma SplitAfterFree(a: string, sep: string, b: string)
    requires |sep| == 1 && !Contains(a, sep)
    ensures Split(a + sep + b, sep) == [a] + Split(b, sep)
  {
    var t := a + sep + b;
    FindAfterFree(a, sep, b);
    SplitAt(t, sep, |a|);
    assert t[..|a|] == a;
    assert t[|a| + 1..] == b;
  }

  /** Both halves around a one-character separator split independently. */
  lemma {:induction false} SplitAround(a: string, sep: string, b: string)
    requires |sep| == 1
    ensures Split(a + sep + b, sep) == Split(a, sep) + Split(b, sep)
    decreases |a|
  {
    if Find(a, sep).None? {
      FindSpec(a, sep);
      SplitAfterFree(a, sep, b);
      SplitAbsent(a, sep);
    } else {
      var i := Find(a, sep).value;
      SplitAround(a[i + 1..], sep, b);
      SplitAroundFound(a, sep, b, i);
    }
  }

  /** The step of `SplitAround` when `a` holds the separator: its first piece comes first on both sides. */
  lemma SplitAroundFound(a: string, sep: string, b: string, i: nat)
    requires |sep| == 1 && Find(a, sep) == Some(i)
    requires Split(a[i + 1..] + sep + b, sep) == Split(a[i + 1..], sep) + Split(b, sep)
    ensures Split(a + sep + b, sep) == Split(a, sep) + Split(b, sep)
  {
    FindAround(a, sep, b, i);
    SplitBothAt(a + sep + b, a, b, sep, i);
  }

  /** Text after the first occurrence in `a` leaves it first, with what comes before it and after it. */
  lemma FindAround(a: string, sep: string, b: string, i: nat)
    requires |sep| == 1 && Find(a, sep) == Some(i)
    ensures Find(a + sep + b, sep) == Some(i)
    ensures (a + sep + b)[..i] == a[..i] && (a + sep + b)[i + 1..] == a[i + 1..] + sep + b
  {
    FindExtend(a, sep, sep + b, i);
    assert a + (sep + b) == a + sep + b;
  }

  /** Two strings whose first separator is at the same place and that agree before it split to the same first piece. */
  lemma SplitBothAt(t: string, a: string, b: string, sep: string, i: nat)
    requires |sep| == 1 && Find(a, sep) == Some(i) && Find(t, sep) == Some(i) && t[..i] == a[..i]
    requires Split(t[i + 1..], sep) == Split(a[i + 1..], sep) + Split(b, sep)
    ensures Split(t, sep) == Split(a, sep) + Split(b, sep)
  {
    SplitAt(t, sep, i);
    SplitAt(a, sep, i);
    AppendAssoc([a[..i]], Split(a[i + 1..], sep), Split(b, sep));
  }

  /** A string without the separator splits into itself alone. */
  lemma SplitAbsent(s: string, sep: string)
    requires sep != "" && !Contains(s, sep)
    ensures Split(s, sep) == [s]
  {
    FindSpec(s, sep);
  }

  /** Python's `"".join(s.split(sep) for s in frags)` as a list: every fragment split on its own. */
  function SplitEach(frags: seq<string>, sep: string): seq<string>
    requires sep != ""
    decreases |frags|
  {
    if |frags| == 0 then [] else Split(frags[0], sep) + SplitEach(frags[1..], sep)
  }

  /**
   * Splitting the join of non-empty `frags` on a one-character separator
   * is splitting every fragment on its own and concatenating the pieces.
   */
  lemma {:induction false} SplitJoinIsSplitEach(frags: seq<string>, sep: string)
    requires |sep| == 1 && |frags| >= 1
    ensures Split(Join(sep, frags), sep) == SplitEach(frags, sep)
    decreases |frags|
  {
    if |frags| > 1 {
      SplitJoinIsSplitEach(frags[1..], sep);
      SplitAround(frags[0], sep, Join(sep, frags[1..]));
    }
  }

  /** `"\n".join` round-trips through `split("\n")` when no item holds the separator. */
  lemma {:induction false} SplitJoin(xs: seq<string>, sep: string)
    requires |sep| == 1 && |xs| >= 1
    requires forall k :: 0 <= k < |xs| ==> !Contains(xs[k], sep)
    ensures Split(Join(sep, xs), sep) == xs
    decreases |xs|
  {
    SplitAbsent(xs[0], sep);
    if |xs| > 1 {
      SplitJoin(xs[1..], sep);
      SplitAround(xs[0], sep, Join(sep, xs[1..]));
    }
  }

  /** Joining one more item appends the separator and the item. */
  lemma {:induction false} JoinSnoc(sep: string, xs: seq<string>, x: string)
    requires |xs| >= 1
    ensures Join(sep, xs + [x]) == Join(sep, xs) + sep + x
    decreases |xs|
  {
    if |xs| > 1 {
      JoinSnoc(sep, xs[1..], x);
      assert (xs + [x])[1..] == xs[1..] + [x];
    }
  }

  /** Python's `s.replace(pat, repl)`: every non-overlapping occurrence, left to right. */
  function Replace(s: string, pat: string, repl: string): string
    decreases |s|
  {
    if pat == "" then
      // Python inserts `repl` before every character and at the end
      if s == "" then repl else repl + [s[0]] + Replace(s[1..], pat, repl)
    else
      match Find(s, pat)
      case None => s
      case Some(i) => s[..i] + repl + Replace(s[i + |pat|..], pat, repl)
  }

  /** `replace` is split on the pattern, then join with the replacement. */
  lemma {:induction false} ReplaceIsSplitJoin(s: string, pat: string, repl: string)
    requires pat != ""
    ensures Replace(s, pat, repl) == Join(repl, Split(s, pat))
    decreases |s|
  {
    match Find(s, pat)
    case None =>
    case Some(i) =>
      var rest := s[i + |pat|..];
      ReplaceIsSplitJoin(rest, pat, repl);
      SplitAt(s, pat, i);
      JoinCons(repl, s[..i], Split(rest, pat));
  }

  /** The first occurrence is replaced, and the replacing goes on after it. */
  lemma ReplaceAt(s: string, pat: string, repl: string, i: nat)
    requires pat != "" && Find(s, pat) == Some(i)
    ensures Replace(s, pat, repl) == s[..i] + repl + Replace(s[i + |pat|..], pat, repl)
  {
  }

  /** Removing a pattern that occurs once deletes that occurrence and keeps both sides. */
  lemma RemoveOnly(t: string, pat: string, i: nat, before: string, after: string)
    requires pat != "" && Find(t, pat) == Some(i)
    requires t[..i] == before && t[i + |pat|..] == after && !Contains(after, pat)
    ensures Replace(t, pat, "") == before + after
  {
    ReplaceAt(t, pat, "", i);
    ReplaceAbsent(after, pat, "");
    assert before + "" == before;
  }

  /** Replacing a pattern that does not occur changes nothing. */
  lemma ReplaceAbsent(s: string, pat: string, repl: string)
    requires pat != "" && !Contains(s, pat)
    ensures Replace(s, pat, repl) == s
  {
    FindSpec(s, pat);
  }

  /** An occurrence at the very start is replaced first. */
  lemma ReplaceLeading(pat: string, x: string, repl: string)
    requires pat != ""
    ensures Replace(pat + x, pat, repl) == repl + Replace(x, pat, repl)
  {
    var t := pat + x;
    assert t[..|pat|] == pat;
    assert Find(t, pat) == Some(0);
    assert t[|pat|..] == x;
    assert Replace(t, pat, repl) == t[..0] + repl + Replace(t[|pat|..], pat, repl);
  }

  /** Removing the empty string, as `s.replace("", "")` does, leaves `s` as it is. */
  lemma {:induction false} ReplaceEmptyByEmpty(s: string)
    ensures Replace(s, "", "") == s
    decreases |s|
  {
    if s != "" {
      ReplaceEmptyByEmpty(s[1..]);
      assert s == [s[0]] + s[1..];
    }
  }

  /** The characters Python's `str.isspace()` accepts. */
  predicate IsSpace(c: char) {
    var n := c as int;
    (9 <= n <= 13) || (28 <= n <= 32) || n == 0x85 || n == 0xA0 || n == 0x1680
    || (0x2000 <= n <= 0x200A) || n == 0x2028 || n == 0x2029 || n == 0x202F
    || n == 0x205F || n == 0x3000
  }

  /** Every character is whitespace: Python's `not s.strip()`. */
  predicate Blank(s: string) {
    forall i :: 0 <= i < |s| ==> IsSpace(s[i])
  }

  /** Neither end is whitespace. */
  predicate IsStripped(s: string) {
    s == [] || (!IsSpace(s[0]) && !IsSpace(s[|s| - 1]))
  }

  /** Whitespace in front of blank text is blank. */
  lemma BlankCons(c: char, b: string)
    requires IsSpace(c) && Blank(b)
    ensures Blank([c] + b)
  {
    forall i | 0 < i < |b| + 1
      ensures IsSpace(([c] + b)[i])
    {
      assert ([c] + b)[i] == b[i - 1];
    }
  }

  /** Whitespace after blank text is blank. */
  lemma BlankSnoc(b: string, c: char)
    requires Blank(b) && IsSpace(c)
    ensures Blank(b + [c])
  {
    forall i | 0 <= i < |b|
      ensures IsSpace((b + [c])[i])
    {
      assert (b + [c])[i] == b[i];
    }
  }

  /** Python's `s.lstrip()`: a suffix of `s` that drops only whitespace and starts with none. */
  function StripLeft(s: string): (r: string)
    ensures |r| <= |s| && r == s[|s| - |r|..] && Blank(s[..|s| - |r|])
    ensures r == [] || !IsSpace(r[0])
    decreases |s|
  {
    if s != [] && IsSpace(s[0]) then
      var r := StripLeft(s[1..]);
      assert s[1..][..|s| - 1 - |r|] == s[1..|s| - |r|];
      BlankCons(s[0], s[1..|s| - |r|]);
      assert [s[0]] + s[1..|s| - |r|] == s[..|s| - |r|];
      r
    else s
  }

  /** Python's `s.rstrip()`: a prefix of `s` that drops only whitespace and ends with none. */
  function StripRight(s: string): (r: string)
    ensures |r| <= |s| && r == s[..|r|] && Blank(s[|r|..])
    ensures r == [] || !IsSpace(r[|r| - 1])
    decreases |s|
  {
    if s != [] && IsSpace(s[|s| - 1]) then
      var r := StripRight(s[..|s| - 1]);
      assert s[..|s| - 1][|r|..] + [s[|s| - 1]] == s[|r|..];
      BlankSnoc(s[..|s| - 1][|r|..], s[|s| - 1]);
      r
    else s
  }

  /** Python's `s.strip()`. */
  function Strip(s: string): (r: string)
    ensures IsStripped(r)
    ensures r == "" <==> Blank(s)
  {
    var l := StripLeft(s);
    var r := StripRight(l);
    assert r != [] ==> r[0] == l[0];
    assert Blank(s) ==> l == [];
    assert r == [] ==> Blank(s) by {
      if r == [] {
        assert Blank(l[0..]);
        forall i | 0 <= i < |s|
          ensures IsSpace(s[i])
        {
          if i < |s| - |l| {
            assert s[..|s| - |l|][i] == s[i];
          }
        }
      }
    }
    r
  }

  /** `lstrip()` removes a blank start and stops at the first non-space character. */
  lemma {:induction false} StripLeftBlank(x: string, s: string)
    requires Blank(x) && (s == [] || !IsSpace(s[0]))
    ensures StripLeft(x + s) == s
    decreases |x|
  {
    var t := x + s;
    if x != [] {
      assert t[0] == x[0] && IsSpace(x[0]);
      assert t[1..] == x[1..] + s;
      assert Blank(x[1..]) by {
        forall i | 0 <= i < |x| - 1
          ensures IsSpace(x[1..][i])
        {
          assert x[1..][i] == x[i + 1];
        }
      }
      StripLeftBlank(x[1..], s);
      assert StripLeft(t) == StripLeft(t[1..]);
    } else {
      assert t == s;
    }
  }

  /** `rstrip()` removes a blank end and stops at the last non-space character. */
  lemma {:induction false} StripRightBlank(s: string, y: string)
    requires Blank(y) && (s == [] || !IsSpace(s[|s| - 1]))
    ensures StripRight(s + y) == s
    decreases |y|
  {
    if y != [] {
      var y' := y[..|y| - 1];
      StripRightBlank(s, y');
      assert (s + y)[..|s + y| - 1] == s + y';
    } else {
      assert s + y == s;
    }
  }

  /** `strip()` of a stripped text padded with whitespace on both sides is that text. */
  lemma StripPadded(x: string, core: string, y: string)
    requires Blank(x) && Blank(y) && IsStripped(core) && core != ""
    ensures Strip(x + core + y) == core
  {
    var s := x + core + y;
    assert s == x + (core + y);
    StripLeftBlank(x, core + y);
    assert StripLeft(s) == core + y;
    StripRightBlank(core, y);
    assert Strip(s) == StripRight(StripLeft(s));
  }

  /** `[x for x in xs if x.strip()]`: the blank items dropped, the others kept as they are, in order. */
  function DropBlank(xs: seq<string>): (r: seq<string>)
    ensures |r| <= |xs|
    decreases |xs|
  {
    if |xs| == 0 then []
    else
      var rest := DropBlank(xs[1..]);
      if !Blank(xs[0]) then [xs[0]] + rest else rest
  }

  /** Every item kept is one of the items given, and not blank. */
  lemma {:induction false} DropBlankKeeps(xs: seq<string>)
    ensures forall k :: 0 <= k < |DropBlank(xs)| ==> !Blank(DropBlank(xs)[k]) && DropBlank(xs)[k] in xs
    decreases |xs|
  {
    if |xs| > 0 {
      var rest := DropBlank(xs[1..]);
      DropBlankKeeps(xs[1..]);
      if !Blank(xs[0]) {
        var r := [xs[0]] + rest;
        assert DropBlank(xs) == r;
        forall k | 0 <= k < |r|
          ensures !Blank(r[k]) && r[k] in xs
        {
          if k > 0 {
            assert r[k] == rest[k - 1];
            assert !Blank(rest[k - 1]) && rest[k - 1] in xs[1..];
          }
        }
      } else {
        assert DropBlank(xs) == rest;
        forall k | 0 <= k < |rest|
          ensures rest[k] in xs
        {
          assert rest[k] in xs[1..];
        }
      }
    }
  }

  /** Filtering a concatenation filters each part. */
  lemma {:induction false} DropBlankConcat(a: seq<string>, b: seq<string>)
    ensures DropBlank(a + b) == DropBlank(a) + DropBlank(b)
    decreases |a|
  {
    if |a| > 0 {
      DropBlankConcat(a[1..], b);
      assert (a + b)[1..] == a[1..] + b;
    } else {
      assert a + b == b;
    }
  }

  /** Nothing is dropped from a list without blank items. */
  lemma {:induction false} DropBlankNone(xs: seq<string>)
    requires forall k :: 0 <= k < |xs| ==> !Blank(xs[k])
    ensures DropBlank(xs) == xs
    decreases |xs|
  {
    if |xs| > 0 {
      DropBlankNone(xs[1..]);
    }
  }

  /** A string that is already stripped is left alone by `strip()`. */
  lemma StripStripped(s: string)
    requires IsStripped(s)
    ensures Strip(s) == s
  {
  }

  /** `strip()` is idempotent. */
  lemma StripIdempotent(s: string)
    ensures Strip(Strip(s)) == Strip(s)
  {
    StripStripped(Strip(s));
  }

  /** Python's `s.startswith(p)`. */
  predicate StartsWith(s: string, p: string) {
    |p| <= |s| && s[..|p|] == p
  }

  /** Python's `c.lower()` on ASCII letters; every other character is kept. */
  function LowerChar(c: char): char {
    if 'A' <= c <= 'Z' then (c as int + 32) as char else c
  }

  /** Python's `s.lower()`, restricted to ASCII case mapping. */
  function Lower(s: string): string {
    seq(|s|, i requires 0 <= i < |s| => LowerChar(s[i]))
  }

  /** No character of a lowered string is an upper-case ASCII letter. */
  predicate NoUpper(s: string) {
    forall i :: 0 <= i < |s| ==> !('A' <= s[i] <= 'Z')
  }
}
