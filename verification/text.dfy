/** The string operations of Go's `strings` and `fmt` packages that the
    data-splitter core relies on, written over `seq<char>`. */
module Text {
  import opened Wrappers

  /** Lower-cases one ASCII letter; every other character is unchanged. */
  function LowerChar(c: char): char
  {
    if 'A' <= c <= 'Z' then (c as int + 32) as char else c
  }

  /** `strings.ToLower`, restricted to the ASCII letters. */
  function ToLower(s: string): (r: string)
    ensures |r| == |s|
    ensures forall i :: 0 <= i < |s| ==> r[i] == LowerChar(s[i])
  {
    if s == [] then [] else [LowerChar(s[0])] + ToLower(s[1..])
  }

  /** Lower-casing twice is lower-casing once. */
  lemma ToLowerIdempotent(s: string)
    ensures ToLower(ToLower(s)) == ToLower(s)
  {
    assert forall i :: 0 <= i < |s| ==> ToLower(ToLower(s))[i] == ToLower(s)[i];
  }

  /** `strings.Contains(s, sub)`: `sub` occurs somewhere in `s`. */
  predicate Contains(s: string, sub: string)
    decreases |s|
  {
    sub <= s || (|s| > 0 && Contains(s[1..], sub))
  }

  /** An occurrence of `sub + more` is also an occurrence of `sub`. */
  lemma {:induction false} ContainsShorter(s: string, sub: string, more: string)
    requires Contains(s, sub + more)
    ensures Contains(s, sub)
    decreases |s|
  {
    if sub + more <= s {
      assert sub <= s;
    } else {
      ContainsShorter(s[1..], sub, more);
    }
  }

  /** An occurrence survives appending text on the right. */
  lemma {:induction false} ContainsExtendRight(s: string, t: string, sub: string)
    requires Contains(s, sub)
    ensures Contains(s + t, sub)
    decreases |s|
  {
    if !(sub <= s) {
      assert (s + t)[1..] == s[1..] + t;
      ContainsExtendRight(s[1..], t, sub);
    }
  }

  /** An occurrence survives prepending text on the left. */
  lemma {:induction false} ContainsExtendLeft(a: string, s: string, sub: string)
    requires Contains(s, sub)
    ensures Contains(a + s, sub)
    decreases |a|
  {
    if a == [] {
      assert a + s == s;
    } else {
      assert (a + s)[1..] == a[1..] + s;
      ContainsExtendLeft(a[1..], s, sub);
    }
  }

  /** A pattern can only occur in `a + b` inside `b` when no character of `a`
      can start it. */
  lemma {:induction false} ContainsSkipsPrefix(a: string, b: string, pat: string)
    requires |pat| > 0
    requires forall i :: 0 <= i < |a| ==> a[i] != pat[0]
    requires Contains(a + b, pat)
    ensures Contains(b, pat)
    decreases |a|
  {
    if a != [] {
      assert !(pat <= a + b) by { assert (a + b)[0] == a[0]; }
      assert (a + b)[1..] == a[1..] + b;
      ContainsSkipsPrefix(a[1..], b, pat);
    } else {
      assert a + b == b;
    }
  }

  /** `strings.Join(parts, sep)`. */
  function Join(parts: seq<string>, sep: string): string
  {
    if |parts| == 0 then ""
    else if |parts| == 1 then parts[0]
    else parts[0] + sep + Join(parts[1..], sep)
  }

  /** `strings.Split(s, pat)` for a non-empty separator: the pieces between
      the non-overlapping, leftmost occurrences of `pat`. */
  function SplitOn(s: string, pat: string): (r: seq<string>)
    requires |pat| > 0
    ensures |r| >= 1
    decreases |s|
  {
    if pat <= s then [""] + SplitOn(s[|pat|..], pat)
    else if s == [] then [""]
    else
      var rest := SplitOn(s[1..], pat);
      [[s[0]] + rest[0]] + rest[1..]
  }

  /** `strings.Replace(s, pat, rep, -1)`: every non-overlapping occurrence of
      `pat`, scanning left to right, is replaced by `rep`. */
  function ReplaceAll(s: string, pat: string, rep: string): string
    requires |pat| > 0
    decreases |s|
  {
    if pat <= s then rep + ReplaceAll(s[|pat|..], pat, rep)
    else if s == [] then []
    else [s[0]] + ReplaceAll(s[1..], pat, rep)
  }

  /** Replacing is splitting at the pattern and joining with the replacement:
      the text between occurrences is kept, in order. */
  lemma {:induction false} ReplaceAllIsJoinOfSplit(s: string, pat: string, rep: string)
    requires |pat| > 0
    ensures ReplaceAll(s, pat, rep) == Join(SplitOn(s, pat), rep)
    decreases |s|
  {
    if pat <= s {
      var rest := SplitOn(s[|pat|..], pat);
      ReplaceAllIsJoinOfSplit(s[|pat|..], pat, rep);
      assert ([""] + rest)[1..] == rest;
    } else if s == [] {
    } else {
      ReplaceAllIsJoinOfSplit(s[1..], pat, rep);
      JoinExtendsFirst(s[0], SplitOn(s[1..], pat), rep);
    }
  }

  /** Putting a character in front of the first part puts it in front of
      the joined text. */
  lemma JoinExtendsFirst(c: char, parts: seq<string>, sep: string)
    requires |parts| >= 1
    ensures Join([[c] + parts[0]] + parts[1..], sep) == [c] + Join(parts, sep)
  {
    var extended := [[c] + parts[0]] + parts[1..];
    if |parts| > 1 {
      assert extended[1..] == parts[1..];
      var tail := sep + Join(parts[1..], sep);
      calc {
        Join(extended, sep);
        ([c] + parts[0]) + sep + Join(parts[1..], sep);
        { AppendAssociative([c] + parts[0], sep, Join(parts[1..], sep)); }
        ([c] + parts[0]) + tail;
        [c] + (parts[0] + tail);
        { AppendAssociative(parts[0], sep, Join(parts[1..], sep)); }
        [c] + Join(parts, sep);
      }
    }
  }

  lemma AppendAssociative<T>(a: seq<T>, b: seq<T>, c: seq<T>)
    ensures a + (b + c) == (a + b) + c
  {
  }

  /** Text without the separator splits into itself alone. */
  lemma {:induction false} SplitOnAbsent(s: string, pat: string)
    requires |pat| > 0
    requires !Contains(s, pat)
    ensures SplitOn(s, pat) == [s]
    decreases |s|
  {
    if s != [] {
      SplitOnAbsent(s[1..], pat);
      assert [s[0]] + s[1..] == s;
    }
  }

  /** Splitting on a one-character separator cuts at its first occurrence. */
  lemma {:induction false} SplitOnAtFirst(head: string, c: char, tail: string)
    requires c !in head
    ensures SplitOn(head + [c] + tail, [c]) == [head] + SplitOn(tail, [c])
    decreases |head|
  {
    var s := head + [c] + tail;
    if head == [] {
      assert [c] <= s;
      assert s[1..] == tail;
    } else {
      assert !([c] <= s) by { assert s[0] == head[0]; }
      assert s[1..] == head[1..] + [c] + tail;
      SplitOnAtFirst(head[1..], c, tail);
      assert [head[0]] + head[1..] == head;
    }
  }

  /** A character that does not occur does not occur as a substring either. */
  lemma {:induction false} AbsentCharNotContained(s: string, c: char)
    requires c !in s
    ensures !Contains(s, [c])
    decreases |s|
  {
    if s != [] {
      assert s[0] != c;
      AbsentCharNotContained(s[1..], c);
    }
  }

  /** Replacing a pattern by itself changes nothing, so joining the pieces of
      a split with the separator gives back the original text. */
  lemma {:induction false} SplitOnJoinRoundTrip(s: string, pat: string)
    requires |pat| > 0
    ensures Join(SplitOn(s, pat), pat) == s
  {
    ReplaceAllIsJoinOfSplit(s, pat, pat);
    ReplaceAllSelf(s, pat);
  }

  lemma {:induction false} ReplaceAllSelf(s: string, pat: string)
    requires |pat| > 0
    ensures ReplaceAll(s, pat, pat) == s
    decreases |s|
  {
    if pat <= s {
      ReplaceAllSelf(s[|pat|..], pat);
      assert s == pat + s[|pat|..];
    } else if s != [] {
      ReplaceAllSelf(s[1..], pat);
      assert s == [s[0]] + s[1..];
    }
  }

  /** Text that does not contain the pattern is returned unchanged. */
  lemma {:induction false} ReplaceAllAbsent(s: string, pat: string, rep: string)
    requires |pat| > 0
    requires !Contains(s, pat)
    ensures ReplaceAll(s, pat, rep) == s
    decreases |s|
  {
    if s != [] {
      ReplaceAllAbsent(s[1..], pat, rep);
      assert s == [s[0]] + s[1..];
    }
  }

  /** A prefix built only from characters that neither start the pattern nor
      occur in the replacement is a prefix of the text before replacing. */
  lemma {:induction false} ReplaceAllKeepsPlainPrefix(p: string, t: string, pat: string, rep: string)
    requires |pat| > 0 && |rep| > 0
    requires forall i :: 0 <= i < |p| ==> p[i] != pat[0] && p[i] !in rep
    requires p <= ReplaceAll(t, pat, rep)
    ensures p <= t
    decreases |t|
  {
    if p != [] {
      ReplaceAllStartsWithReplacement(t, pat, rep);
      if pat <= t {
        // the replacement's first character would have to start `p`
        assert false;
      } else if t == [] {
      } else {
        ReplaceAllKeepsPlainPrefix(p[1..], t[1..], pat, rep);
      }
    }
  }

  lemma ReplaceAllStartsWithReplacement(t: string, pat: string, rep: string)
    requires |pat| > 0 && |rep| > 0
    ensures pat <= t ==> |ReplaceAll(t, pat, rep)| > 0 && ReplaceAll(t, pat, rep)[0] == rep[0]
  {
  }

  /** When the pattern cannot overlap itself (its first character does not
      recur in it) and the replacement shares no character with it, no
      occurrence of the pattern survives the replacement. */
  lemma {:induction false} ReplaceAllLeavesNoPattern(s: string, pat: string, rep: string)
    requires |pat| > 0 && |rep| > 0
    requires forall i :: 1 <= i < |pat| ==> pat[i] != pat[0]
    requires forall i :: 0 <= i < |pat| ==> pat[i] !in rep
    ensures !Contains(ReplaceAll(s, pat, rep), pat)
    decreases |s|
  {
    if pat <= s {
      var t := s[|pat|..];
      ReplaceAllLeavesNoPattern(t, pat, rep);
      if Contains(rep + ReplaceAll(t, pat, rep), pat) {
        ContainsSkipsPrefix(rep, ReplaceAll(t, pat, rep), pat);
      }
    } else if s != [] {
      var t := s[1..];
      var r := ReplaceAll(t, pat, rep);
      ReplaceAllLeavesNoPattern(t, pat, rep);
      assert ([s[0]] + r)[1..] == r;
      if pat <= [s[0]] + r {
        ReplaceAllKeepsPlainPrefix(pat[1..], t, pat, rep);
        PrefixFromHeadAndTail(pat, s);
      }
    }
  }

  lemma PrefixFromHeadAndTail(p: string, s: string)
    requires |p| > 0 && |s| > 0 && p[0] == s[0] && p[1..] <= s[1..]
    ensures p <= s
  {
    assert p == [s[0]] + p[1..];
  }

  predicate IsDigit(c: char)
  {
    '0' <= c <= '9'
  }

  function DigitChar(d: nat): (c: char)
    requires d < 10
  {
    ('0' as int + d) as char
  }

  function DigitValue(c: char): nat
  {
    if IsDigit(c) then c as int - '0' as int else 0
  }

  /** The decimal text of a natural number, most significant digit first. */
  function NatToString(n: nat): (r: string)
    ensures |r| > 0
    ensures forall i :: 0 <= i < |r| ==> IsDigit(r[i])
    decreases n
  {
    if n < 10 then [DigitChar(n)] else NatToString(n / 10) + [DigitChar(n % 10)]
  }

  /** `fmt.Sprintf("%d", i)`: a leading '-' for negative numbers. */
  function FormatInt(i: int): (r: string)
    ensures |r| > 0
    ensures forall k :: 0 <= k < |r| ==> IsDigit(r[k]) || r[k] == '-'
  {
    if i < 0 then "-" + NatToString(-i) else NatToString(i)
  }

  /** Reads back a run of decimal digits. */
  function ParseNat(s: string): nat
  {
    if s == [] then 0 else 10 * ParseNat(s[..|s| - 1]) + DigitValue(s[|s| - 1])
  }

  /** Reads back an optionally negative decimal number. */
  function ParseInt(s: string): int
  {
    if |s| > 0 && s[0] == '-' then -(ParseNat(s[1..]) as int) else ParseNat(s)
  }

  lemma {:induction false} ParseNatToString(n: nat)
    ensures ParseNat(NatToString(n)) == n
    decreases n
  {
    if n >= 10 {
      var s := NatToString(n);
      ParseNatToString(n / 10);
      assert s[..|s| - 1] == NatToString(n / 10);
    }
  }

  /** Formatting with `%d` loses nothing: the number can be read back. */
  lemma ParseFormatInt(i: int)
    ensures ParseInt(FormatInt(i)) == i
  {
    if i < 0 {
      assert FormatInt(i)[1..] == NatToString(-i);
      ParseNatToString(-i);
    } else {
      ParseNatToString(i);
    }
  }

  /** `strings.TrimPrefix`. */
  function TrimPrefix(s: string, prefix: string): (r: string)
  {
    if prefix <= s then s[|prefix|..] else s
  }

  predicate HasSuffix(s: string, suffix: string)
  {
    |suffix| <= |s| && s[|s| - |suffix|..] == suffix
  }

  /** A concatenation ends with its right part. */
  lemma SuffixOfConcat(a: string, b: string)
    ensures HasSuffix(a + b, b)
    ensures TrimSuffix(a + b, b) == a
  {
    assert (a + b)[|a|..] == b;
    assert (a + b)[..|a|] == a;
  }

  /** `strings.TrimSuffix`. */
  function TrimSuffix(s: string, suffix: string): (r: string)
  {
    if HasSuffix(s, suffix) then s[..|s| - |suffix|] else s
  }

  /** `strings.Cut(s, string(c))`: the text before and after the first `c`. */
  function Cut(s: string, c: char): (r: Option<(string, string)>)
    ensures r.Some? ==> c !in r.value.0 && s == r.value.0 + [c] + r.value.1
  {
    if s == [] then None
    else if s[0] == c then Some(([], s[1..]))
    else
      match Cut(s[1..], c)
      case None => None
      case Some(p) => Some(([s[0]] + p.0, p.1))
  }

  /** Cutting at a separator the head does not contain splits exactly there. */
  lemma {:induction false} CutAt(head: string, c: char, tail: string)
    requires c !in head
    ensures Cut(head + [c] + tail, c) == Some((head, tail))
    decreases |head|
  {
    var s := head + [c] + tail;
    if head != [] {
      assert s[1..] == head[1..] + [c] + tail;
      CutAt(head[1..], c, tail);
      assert [head[0]] + head[1..] == head;
    } else {
      assert s[1..] == tail;
    }
  }
}
