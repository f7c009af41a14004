/** The Python `str` operations the modelled code relies on: `split`, `join`,
    `strip`, `startswith`, `in` on strings and ASCII `lower`. Strings are
    sequences of Unicode code points, as in Python 3. */
module Strings {
  import opened Wrappers

  /** Python's `str.isspace` set, which is also what `str.strip()` removes and
      what the regex class `\s` matches in a `str` pattern. */
  predicate IsSpace(c: char) {
    || ('\t' <= c <= '\r')
    || ('\U{1C}' <= c <= '\U{1F}')
    || c == ' ' || c == '\U{85}' || c == '\U{A0}' || c == '\U{1680}'
    || ('\U{2000}' <= c <= '\U{200A}')
    || c == '\U{2028}' || c == '\U{2029}' || c == '\U{202F}' || c == '\U{205F}' || c == '\U{3000}'
  }

  predicate AllSpace(s: string) {
    forall i :: 0 <= i < |s| ==> IsSpace(s[i])
  }

  /** `s.startswith(p)` */
  predicate StartsWith(s: string, p: string) {
    |p| <= |s| && s[..|p|] == p
  }

  /** `s.endswith(p)` */
  predicate EndsWith(s: string, p: string) {
    |p| <= |s| && s[|s| - |p|..] == p
  }

  lemma StartsWithAppend(s: string, p: string, rest: string)
    requires StartsWith(s, p)
    ensures StartsWith(s + rest, p)
  {
    assert (s + rest)[..|p|] == s[..|p|];
  }

  lemma EndsWithPrepend(s: string, p: string, front: string)
    requires EndsWith(s, p)
    ensures EndsWith(front + s, p)
  {
    assert (front + s)[|front + s| - |p|..] == s[|s| - |p|..];
  }

  /** `sub` occurs in `s` starting at index `k`. */
  predicate OccursAt(s: string, sub: string, k: int) {
    0 <= k && k + |sub| <= |s| && s[k..k + |sub|] == sub
  }

  /** `sub in s` */
  predicate Contains(s: string, sub: string) {
    exists k :: 0 <= k <= |s| && OccursAt(s, sub, k)
  }

  lemma ContainsMiddle(a: string, b: string, c: string)
    ensures Contains(a + b + c, b)
  {
    var s := a + b + c;
    assert s[|a|..|a| + |b|] == b;
    assert OccursAt(s, b, |a|);
  }

  /** A string with no white space at either end, as `strip()` leaves it. */
  predicate Stripped(s: string) {
    s == [] || (!IsSpace(s[0]) && !IsSpace(s[|s| - 1]))
  }

  /** `s.lstrip()` */
  function TrimLeft(s: string): string {
    if s != [] && IsSpace(s[0]) then TrimLeft(s[1..]) else s
  }

  /** `s.rstrip()` */
  function TrimRight(s: string): string {
    if s != [] && IsSpace(s[|s| - 1]) then TrimRight(s[..|s| - 1]) else s
  }

  /** `s.strip()` */
  function Strip(s: string): string {
    TrimRight(TrimLeft(s))
  }

  /** `lstrip()` removes a white-space prefix and stops at the first other character. */
  lemma {:induction false} TrimLeftSpec(s: string)
    ensures var r := TrimLeft(s);
      && |r| <= |s| && r == s[|s| - |r|..]
      && (r == [] || !IsSpace(r[0]))
      && AllSpace(s[..|s| - |r|])
  {
    if s != [] && IsSpace(s[0]) {
      TrimLeftSpec(s[1..]);
      var r := TrimLeft(s[1..]);
      assert s[1..][|s[1..]| - |r|..] == s[|s| - |r|..];
      var p := s[..|s| - |r|];
      forall i | 0 <= i < |p| ensures IsSpace(p[i]) {
        if i > 0 { assert p[i] == s[1..][..|s[1..]| - |r|][i - 1]; }
      }
    }
  }

  /** `rstrip()` removes a white-space suffix and stops at the last other character. */
  lemma {:induction false} TrimRightSpec(s: string)
    ensures var r := TrimRight(s);
      && |r| <= |s| && r == s[..|r|]
      && (r == [] || !IsSpace(r[|r| - 1]))
      && AllSpace(s[|r|..])
  {
    if s != [] && IsSpace(s[|s| - 1]) {
      var s' := s[..|s| - 1];
      TrimRightSpec(s');
      var r := TrimRight(s');
      assert s'[..|r|] == s[..|r|];
      var q := s[|r|..];
      forall i | 0 <= i < |q| ensures IsSpace(q[i]) {
        if i < |q| - 1 { assert q[i] == s'[|r|..][i]; }
      }
    }
  }

  /** `strip()` leaves no white space at either end and removes only white
      space: what is cut off at each end is all white space, and what remains
      is a contiguous part of the input. */
  lemma StripSpec(s: string)
    ensures Stripped(Strip(s)) && |Strip(s)| <= |s|
    ensures exists k :: 0 <= k <= |s| - |Strip(s)| && s[k..k + |Strip(s)|] == Strip(s)
                        && AllSpace(s[..k]) && AllSpace(s[k + |Strip(s)|..])
  {
    var l := TrimLeft(s);
    var r := TrimRight(l);
    TrimLeftSpec(s);
    TrimRightSpec(l);
    var k := |s| - |l|;
    assert r != [] ==> r[0] == l[0];
    assert s[k..] == l;
    assert s[k..k + |r|] == r;
    var t := s[k + |r|..];
    assert t == l[|r|..];
  }

  /** Text found in a part is found in any string around it. */
  lemma ContainsWithin(pre: string, s: string, post: string, sub: string)
    requires Contains(s, sub)
    ensures Contains(pre + s + post, sub)
  {
    var k :| 0 <= k <= |s| && OccursAt(s, sub, k);
    var t := pre + s + post;
    assert t[|pre| + k..|pre| + k + |sub|] == s[k..k + |sub|];
    assert OccursAt(t, sub, |pre| + k);
  }

  /** Every part of a join occurs in it. */
  lemma {:induction false} JoinContainsPart(parts: seq<string>, sep: string, k: nat)
    requires k < |parts|
    ensures Contains(Join(parts, sep), parts[k])
  {
    if |parts| == 1 {
      ContainsMiddle("", parts[0], "");
      assert "" + parts[0] + "" == parts[0];
    } else if k == 0 {
      ContainsMiddle("", parts[0], sep + Join(parts[1..], sep));
      assert "" + parts[0] + (sep + Join(parts[1..], sep)) == Join(parts, sep);
    } else {
      JoinContainsPart(parts[1..], sep, k - 1);
      ContainsWithin(parts[0] + sep, Join(parts[1..], sep), "", parts[k]);
      assert parts[0] + sep + Join(parts[1..], sep) + "" == Join(parts, sep);
    }
  }

  /** What `strip()` leaves is a piece of the input with no white space at
      its ends. */
  lemma StripContained(s: string)
    ensures Stripped(Strip(s)) && Contains(s, Strip(s))
  {
    StripSpec(s);
    var k :| 0 <= k <= |s| - |Strip(s)| && s[k..k + |Strip(s)|] == Strip(s)
             && AllSpace(s[..k]) && AllSpace(s[k + |Strip(s)|..]);
    assert OccursAt(s, Strip(s), k);
  }

  /** A string that has no white space at its ends is left as it is. */
  lemma StripStripped(s: string)
    requires Stripped(s)
    ensures Strip(s) == s
  {
    assert TrimLeft(s) == s;
  }

  /** `strip()` is idempotent. */
  lemma StripIdempotent(s: string)
    ensures Strip(Strip(s)) == Strip(s)
  {
    StripSpec(s);
    StripStripped(Strip(s));
  }

  /** `not s.strip()` holds exactly for the strings made only of white space. */
  lemma StripEmptyIff(s: string)
    ensures Strip(s) == [] <==> AllSpace(s)
  {
    var l := TrimLeft(s);
    TrimLeftSpec(s);
    TrimRightSpec(l);
    if !AllSpace(s) {
      var k :| 0 <= k < |s| && !IsSpace(s[k]);
      assert k >= |s| - |l|;
      assert l[k - (|s| - |l|)] == s[k];
    }
  }

  /** ASCII `lower()`: the upper-case Latin letters become lower-case. */
  function LowerChar(c: char): char {
    if 'A' <= c <= 'Z' then (c as int + 32) as char else c
  }

  function Lower(s: string): (r: string)
    ensures |r| == |s|
    ensures forall i :: 0 <= i < |s| ==> r[i] == LowerChar(s[i])
  {
    if s == [] then [] else [LowerChar(s[0])] + Lower(s[1..])
  }

  /** The last element of a non-empty sequence, `xs[-1]`. */
  function Last<T>(xs: seq<T>): T
    requires |xs| > 0
  {
    xs[|xs| - 1]
  }

  /** `s.split(c)` for a one-character separator: the pieces between the
      separators, in order, with empty pieces kept. */
  function Split(s: string, c: char): (r: seq<string>)
    ensures |r| >= 1
    ensures forall j :: 0 <= j < |r| ==> c !in r[j]
  {
    if s == [] then [""]
    else
      var rest := Split(s[1..], c);
      if s[0] == c then [""] + rest
      else [[s[0]] + rest[0]] + rest[1..]
  }

  /** `sep.join(parts)` */
  function Join(parts: seq<string>, sep: string): string {
    if |parts| == 0 then ""
    else if |parts| == 1 then parts[0]
    else parts[0] + sep + Join(parts[1..], sep)
  }

  /** Empty parts joined by white space give white space only. */
  lemma {:induction false} JoinBlank(parts: seq<string>, sep: string)
    requires AllSpace(sep)
    requires forall k :: 0 <= k < |parts| ==> parts[k] == ""
    ensures AllSpace(Join(parts, sep))
  {
    if |parts| > 1 {
      JoinBlank(parts[1..], sep);
      var rest := Join(parts[1..], sep);
      assert Join(parts, sep) == sep + rest;
      forall i | 0 <= i < |sep + rest| ensures IsSpace((sep + rest)[i]) {
        if i >= |sep| { assert (sep + rest)[i] == rest[i - |sep|]; }
      }
    }
  }

  lemma JoinCons(p: string, parts: seq<string>, sep: string)
    requires |parts| >= 1
    ensures Join([p] + parts, sep) == p + sep + Join(parts, sep)
  {
    assert ([p] + parts)[1..] == parts;
  }

  /** A string without a separator splits into itself alone. */
  lemma SplitNoSep(s: string, c: char)
    requires c !in s
    ensures Split(s, c) == [s]
  {
    if s != [] {
      SplitNoSep(s[1..], c);
      assert [s[0]] + s[1..] == s;
    }
  }

  /** Joining the pieces of a split with the separator gives the string back. */
  lemma {:induction false} JoinSplit(s: string, c: char)
    ensures Join(Split(s, c), [c]) == s
  {
    if s != [] {
      var rest := Split(s[1..], c);
      JoinSplit(s[1..], c);
      if s[0] == c {
        JoinCons("", rest, [c]);
      } else if |rest| == 1 {
        assert Split(s, c) == [[s[0]] + rest[0]];
      } else {
        var first := [s[0]] + rest[0];
        assert Split(s, c) == [first] + rest[1..];
        JoinCons(first, rest[1..], [c]);
        JoinCons(rest[0], rest[1..], [c]);
        assert rest == [rest[0]] + rest[1..];
      }
    }
  }

  /** Splitting at a separator splits the two sides independently. */
  lemma {:induction false} SplitConcat(x: string, y: string, c: char)
    ensures Split(x + [c] + y, c) == Split(x, c) + Split(y, c)
  {
    var s := x + [c] + y;
    if x == [] {
      assert s[0] == c && s[1..] == y;
    } else {
      assert s[0] == x[0] && s[1..] == x[1..] + [c] + y;
      SplitConcat(x[1..], y, c);
      var rest := Split(s[1..], c);
      var rx := Split(x[1..], c);
      assert rest == rx + Split(y, c);
      if x[0] != c {
        assert rest[0] == rx[0];
        assert rest[1..] == rx[1..] + Split(y, c);
      }
    }
  }

  /** Splitting a join of separator-free pieces gives the pieces back. */
  lemma {:induction false} SplitJoin(parts: seq<string>, c: char)
    requires |parts| >= 1
    requires forall j :: 0 <= j < |parts| ==> c !in parts[j]
    ensures Split(Join(parts, [c]), c) == parts
  {
    if |parts| == 1 {
      SplitNoSep(parts[0], c);
    } else {
      SplitJoin(parts[1..], c);
      SplitNoSep(parts[0], c);
      SplitConcat(parts[0], Join(parts[1..], [c]), c);
      assert parts == [parts[0]] + parts[1..];
    }
  }

  /** The last piece of a split is a suffix of the string. */
  lemma {:induction false} SplitLastSuffix(s: string, c: char)
    ensures |Last(Split(s, c))| <= |s|
    ensures s[|s| - |Last(Split(s, c))|..] == Last(Split(s, c))
  {
    if s != [] {
      var r := Split(s, c);
      var rest := Split(s[1..], c);
      SplitLastSuffix(s[1..], c);
      var t := Last(rest);
      assert s[1..][|s[1..]| - |t|..] == s[|s| - |t|..];
      if s[0] != c && |rest| == 1 {
        JoinSplit(s[1..], c);
        assert r == [[s[0]] + rest[0]];
        assert [s[0]] + s[1..] == s;
      } else if s[0] == c {
        assert r == [""] + rest;
        assert Last(r) == t;
      } else {
        assert r == [[s[0]] + rest[0]] + rest[1..];
        assert Last(r) == t;
      }
    }
  }

  /** The index of the last `c` in `s`, Python's `s.rfind(c)`. */
  function LastIndexOf(s: string, c: char): (r: Option<nat>)
    ensures r.Some? ==> r.value < |s| && s[r.value] == c && c !in s[r.value + 1..]
    ensures r.None? ==> c !in s
  {
    if |s| == 0 then None
    else if s[|s| - 1] == c then Some(|s| - 1)
    else
      var r := LastIndexOf(s[..|s| - 1], c);
      assert r.Some? ==> s[r.value + 1..] == s[..|s| - 1][r.value + 1..] + [s[|s| - 1]];
      assert r.None? ==> s == s[..|s| - 1] + [s[|s| - 1]];
      r
  }

  /** The last `c` is the one with no `c` after it. */
  lemma {:induction false} LastIndexOfIs(s: string, c: char, k: nat)
    requires k < |s| && s[k] == c && c !in s[k + 1..]
    ensures LastIndexOf(s, c) == Some(k)
    decreases |s|
  {
    if k < |s| - 1 {
      var t := s[..|s| - 1];
      assert s[|s| - 1] == s[k + 1..][|s| - k - 2];
      assert t[k + 1..] == s[k + 1..][..|s| - k - 2];
      LastIndexOfIs(t, c, k);
    }
  }
}
