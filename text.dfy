/** String primitives of Python 2 byte strings, as both log parsers use them:
    `str.strip()`, `str.lower()`, `in` on strings, `str.split(sep)` and the
    search `re.search('\((.*?)\)', s)` that finds the first parenthesised comment
    of a user-agent. */
module Text {

  datatype Option<T> = None | Some(value: T)

  /** Python 2 `str.isspace` for one character: space, tab, newline, vertical
      tab, form feed and carriage return. */
  predicate IsSpace(c: char) {
    c == ' ' || '\t' <= c <= '\r'
  }

  predicate AllSpace(s: string) {
    forall i :: 0 <= i < |s| ==> IsSpace(s[i])
  }

  /** `str.lower` on a Python 2 byte string (C locale): only ASCII letters change. */
  function LowerChar(c: char): (r: char)
    ensures !('A' <= r <= 'Z')
    ensures !('A' <= c <= 'Z') ==> r == c
  {
    if 'A' <= c <= 'Z' then (c as int - 'A' as int + 'a' as int) as char else c
  }

  function Lower(s: string): (r: string)
    ensures |r| == |s|
    ensures forall i :: 0 <= i < |s| ==> r[i] == LowerChar(s[i])
  {
    seq(|s|, i requires 0 <= i < |s| => LowerChar(s[i]))
  }

  /** Drops leading whitespace. */
  function StripLeft(s: string): string {
    if s != [] && IsSpace(s[0]) then StripLeft(s[1..]) else s
  }

  /** Drops trailing whitespace. */
  function StripRight(s: string): string {
    if s != [] && IsSpace(s[|s| - 1]) then StripRight(s[..|s| - 1]) else s
  }

  /** `StripLeft` leaves a suffix of `s` that does not start with whitespace, and
      everything it drops is whitespace. */
  lemma {:induction false} StripLeftSpec(s: string)
    ensures var r := StripLeft(s);
      |r| <= |s| && r == s[|s| - |r|..] && AllSpace(s[..|s| - |r|]) && (r == [] || !IsSpace(r[0]))
  {
    if s != [] && IsSpace(s[0]) {
      StripLeftSpec(s[1..]);
      var r := StripLeft(s);
      assert s[..|s| - |r|] == [s[0]] + s[1..][..|s| - 1 - |r|];
    }
  }

  /** `StripRight` leaves a prefix of `s` that does not end with whitespace, and
      everything it drops is whitespace. */
  lemma {:induction false} StripRightSpec(s: string)
    ensures var r := StripRight(s);
      |r| <= |s| && r == s[..|r|] && AllSpace(s[|r|..]) && (r == [] || !IsSpace(r[|r| - 1]))
  {
    if s != [] && IsSpace(s[|s| - 1]) {
      StripRightSpec(s[..|s| - 1]);
      var r := StripRight(s);
      assert s[|r|..] == s[..|s| - 1][|r|..] + [s[|s| - 1]];
    }
  }

  /** `s.strip()`. */
  function Strip(s: string): string {
    StripRight(StripLeft(s))
  }

  /** `s.strip()` is the contiguous block of `s` left after removing whitespace
      from both ends: what is removed is whitespace and what is left neither
      starts nor ends with it. */
  lemma StripSpec(s: string)
    ensures var r := Strip(s);
      && (exists i :: 0 <= i <= i + |r| <= |s| && r == s[i..i + |r|]
                      && AllSpace(s[..i]) && AllSpace(s[i + |r|..]))
      && (r == [] || (!IsSpace(r[0]) && !IsSpace(r[|r| - 1])))
  {
    var l := StripLeft(s);
    var r := StripRight(l);
    var i := |s| - |l|;
    StripLeftSpec(s);
    StripRightSpec(l);
    assert r == s[i..i + |r|];
    assert s[i + |r|..] == l[|r|..];
  }

  /** Text that neither starts nor ends with whitespace is its own strip. */
  lemma StripUnpadded(s: string)
    requires s == [] || (!IsSpace(s[0]) && !IsSpace(s[|s| - 1]))
    ensures Strip(s) == s
  {
  }

  /** Python `t in s` for strings: `t` occurs in `s` as a contiguous block. */
  predicate Contains(s: string, t: string) {
    t <= s || (s != [] && Contains(s[1..], t))
  }

  predicate OccursAt(s: string, t: string, i: int) {
    0 <= i && i + |t| <= |s| && s[i..i + |t|] == t
  }

  lemma {:induction false} OccursThenContains(s: string, t: string, i: int)
    requires OccursAt(s, t, i)
    ensures Contains(s, t)
    decreases i
  {
    if i == 0 {
      assert t == s[..|t|];
    } else {
      assert s[1..][i - 1..i - 1 + |t|] == s[i..i + |t|];
      OccursThenContains(s[1..], t, i - 1);
    }
  }

  lemma {:induction false} ContainsThenOccurs(s: string, t: string) returns (i: int)
    requires Contains(s, t)
    ensures OccursAt(s, t, i)
  {
    if t <= s {
      i := 0;
    } else {
      var j := ContainsThenOccurs(s[1..], t);
      assert s[1..][j..j + |t|] == s[j + 1..j + 1 + |t|];
      i := j + 1;
    }
  }

  /** The recursive `Contains` is the substring relation. */
  lemma ContainsIff(s: string, t: string)
    ensures Contains(s, t) <==> exists i :: OccursAt(s, t, i)
  {
    if Contains(s, t) {
      var i := ContainsThenOccurs(s, t);
    }
    forall i | OccursAt(s, t, i) ensures Contains(s, t) {
      OccursThenContains(s, t, i);
    }
  }

  /** `any(t in s for t in tokens)`. */
  predicate ContainsAny(s: string, tokens: seq<string>) {
    exists t :: t in tokens && Contains(s, t)
  }

  /** Lowercased text holds no ASCII capital, so a token that holds one never
      occurs in it: tokens are matched as written, only the field is lowercased. */
  lemma CapitalTokenNeverInLower(s: string, t: string, k: nat)
    requires k < |t| && 'A' <= t[k] <= 'Z'
    ensures !Contains(Lower(s), t)
  {
    forall i | 0 <= i && i + |t| <= |Lower(s)| ensures !OccursAt(Lower(s), t, i) {
      assert Lower(s)[i..i + |t|][k] == Lower(s)[i + k];
    }
    ContainsIff(Lower(s), t);
  }

  /** `sep.join(parts)`, the inverse of `Split`. */
  function Join(parts: seq<string>, sep: char): string
    requires |parts| >= 1
  {
    if |parts| == 1 then parts[0] else parts[0] + [sep] + Join(parts[1..], sep)
  }

  /** `s.split(sep)` with an explicit separator: empty pieces are kept. */
  function Split(s: string, sep: char): (r: seq<string>)
    ensures |r| >= 1
  {
    if s == [] then [[]]
    else
      var rest := Split(s[1..], sep);
      if s[0] == sep then [[]] + rest
      else [[s[0]] + rest[0]] + rest[1..]
  }

  /** No piece holds the separator, and joining the pieces back gives `s`. */
  lemma {:induction false} JoinSplit(s: string, sep: char)
    ensures forall i :: 0 <= i < |Split(s, sep)| ==> sep !in Split(s, sep)[i]
    ensures Join(Split(s, sep), sep) == s
  {
    if s != [] {
      JoinSplit(s[1..], sep);
      assert s == [s[0]] + s[1..];
    }
  }

  /** There is always one more piece than there are separators. */
  lemma {:induction false} SplitCount(s: string, sep: char)
    ensures |Split(s, sep)| == multiset(s)[sep] + 1
  {
    if s != [] {
      SplitCount(s[1..], sep);
      assert s == [s[0]] + s[1..];
    }
  }

  lemma {:induction false} SplitWithout(a: string, sep: char)
    requires sep !in a
    ensures Split(a, sep) == [a]
  {
    if a != [] {
      SplitWithout(a[1..], sep);
      assert a == [a[0]] + a[1..];
    }
  }

  lemma {:induction false} SplitAtFirst(a: string, sep: char, b: string)
    requires sep !in a
    ensures Split(a + [sep] + b, sep) == [a] + Split(b, sep)
  {
    var s := a + [sep] + b;
    if a == [] {
      assert s[1..] == b;
      assert s[0] == sep;
    } else {
      SplitAtFirst(a[1..], sep, b);
      assert a[0] in a;
      assert s[0] == a[0] && s[0] != sep && s[1..] == a[1..] + [sep] + b;
      var rest := Split(s[1..], sep);
      assert rest == [a[1..]] + Split(b, sep);
      assert Split(s, sep) == [[a[0]] + rest[0]] + rest[1..];
      assert [a[0]] + a[1..] == a;
    }
  }

  /** Splitting undoes joining when no piece holds the separator. */
  lemma {:induction false} SplitJoin(parts: seq<string>, sep: char)
    requires |parts| >= 1
    requires forall i :: 0 <= i < |parts| ==> sep !in parts[i]
    ensures Split(Join(parts, sep), sep) == parts
  {
    if |parts| == 1 {
      SplitWithout(parts[0], sep);
    } else {
      SplitJoin(parts[1..], sep);
      SplitAtFirst(parts[0], sep, Join(parts[1..], sep));
      assert [parts[0]] + parts[1..] == parts;
    }
  }

  /** No `)` and no newline in `s[lo..hi]`: the lazy `.*?` can run over it. */
  predicate RunsTo(s: string, lo: int, hi: int)
    requires 0 <= lo <= hi <= |s|
  {
    forall k :: lo <= k < hi ==> s[k] != ')' && s[k] != '\n'
  }

  /** `\((.*?)\)` matches with its `(` at `i` and its `)` at `j`. */
  predicate GroupAt(s: string, i: int, j: int) {
    0 <= i < j < |s| && s[i] == '(' && s[j] == ')' && RunsTo(s, i + 1, j)
  }

  /** Where the lazy group started before `j` closes: the first `)` at or after
      `j`, unless a newline comes first. */
  function CloseFrom(s: string, j: nat): (r: Option<nat>)
    requires j <= |s|
    ensures r.Some? ==> j <= r.value < |s| && s[r.value] == ')' && RunsTo(s, j, r.value)
    ensures r.None? ==> forall k :: j <= k < |s| && s[k] == ')' ==> !RunsTo(s, j, k)
    decreases |s| - j
  {
    if j == |s| then None
    else if s[j] == ')' then Some(j)
    else if s[j] == '\n' then None
    else CloseFrom(s, j + 1)
  }

  /** The search tried from position `i` onwards. */
  function SearchFrom(s: string, i: nat): Option<string>
    requires i <= |s|
    decreases |s| - i
  {
    if i == |s| then None
    else if s[i] == '(' && CloseFrom(s, i + 1).Some? then Some(s[i + 1..CloseFrom(s, i + 1).value])
    else SearchFrom(s, i + 1)
  }

  /** `re.search('\((.*?)\)', s)` and its group 1. */
  function FirstParen(s: string): Option<string> {
    SearchFrom(s, 0)
  }

  lemma {:induction false} SearchFromSpec(s: string, i: nat)
    requires i <= |s|
    ensures SearchFrom(s, i).None? <==> forall a, b :: i <= a ==> !GroupAt(s, a, b)
    ensures SearchFrom(s, i).Some? ==>
      exists a, b :: i <= a && GroupAt(s, a, b) && SearchFrom(s, i).value == s[a + 1..b]
                     && forall a', b' :: i <= a' < a ==> !GroupAt(s, a', b')
    decreases |s| - i
  {
    if i == |s| {
    } else if s[i] == '(' && CloseFrom(s, i + 1).Some? {
      assert GroupAt(s, i, CloseFrom(s, i + 1).value);
    } else {
      SearchFromSpec(s, i + 1);
    }
  }

  /** The group of `s` between `(` and the first `)` after it, for the leftmost
      `(` that has one with no newline in between; `None` when no `(` has one. */
  lemma FirstParenSpec(s: string)
    ensures FirstParen(s).None? <==> forall a, b :: !GroupAt(s, a, b)
    ensures FirstParen(s).Some? ==>
      exists a, b :: GroupAt(s, a, b) && FirstParen(s).value == s[a + 1..b]
                     && forall a', b' :: a' < a ==> !GroupAt(s, a', b')
  {
    SearchFromSpec(s, 0);
  }

  /** At a given `(` the group can close at one place only. */
  lemma GroupUnique(s: string, a: int, b: int, b': int)
    requires GroupAt(s, a, b) && GroupAt(s, a, b')
    ensures b == b'
  {
    assert s[b] == ')' && s[b'] == ')';
  }

  /** A comment in parentheses after text with no `(` is the one found, whatever
      follows it, provided it holds no `)` and no newline. */
  lemma FirstParenOf(pre: string, comment: string, post: string)
    requires '(' !in pre && ')' !in comment && '\n' !in comment
    ensures FirstParen(pre + "(" + comment + ")" + post) == Some(comment)
  {
    var s := pre + "(" + comment + ")" + post;
    var a, b := |pre|, |pre| + 1 + |comment|;
    assert s == pre + ("(" + comment + ")" + post);
    assert s[a..b + 1] == "(" + comment + ")";
    assert s[a + 1..b] == comment;
    assert RunsTo(s, a + 1, b) by {
      forall k | a + 1 <= k < b ensures s[k] != ')' && s[k] != '\n' {
        assert s[k] == s[a + 1..b][k - a - 1];
      }
    }
    assert GroupAt(s, a, b);
    forall a', b' | a' < a ensures !GroupAt(s, a', b') {
      if 0 <= a' {
        assert s[a'] == pre[a'];
      }
    }
    FirstParenSpec(s);
    var a0, b0 :| GroupAt(s, a0, b0) && FirstParen(s).value == s[a0 + 1..b0]
                  && forall a', b' :: a' < a0 ==> !GroupAt(s, a', b');
    assert a0 == a;
    GroupUnique(s, a, b, b0);
  }
}
