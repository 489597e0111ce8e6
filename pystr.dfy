/** The optional value the regular-expression searches return. */
module Options {
  datatype Option<+T> = None | Some(value: T)

  /** The values of the options that are present, in order. */
  function Somes<T>(xs: seq<Option<T>>): (vs: seq<T>)
    ensures |vs| <= |xs|
  {
    if xs == [] then []
    else Somes(xs[..|xs| - 1]) + (match xs[|xs| - 1] case Some(v) => [v] case None => [])
  }

  lemma {:induction false} SomesAppend<T>(a: seq<Option<T>>, b: seq<Option<T>>)
    ensures Somes(a + b) == Somes(a) + Somes(b)
    decreases |b|
  {
    if b == [] {
      assert a + b == a;
    } else {
      var b' := b[..|b| - 1];
      assert (a + b)[..|a + b| - 1] == a + b';
      assert (a + b)[|a + b| - 1] == b[|b| - 1];
      SomesAppend(a, b');
    }
  }

  /** `f` applied to each element, in order. */
  function Map<A, B>(f: A -> B, xs: seq<A>): (ys: seq<B>)
    ensures |ys| == |xs|
  {
    seq(|xs|, k requires 0 <= k < |xs| => f(xs[k]))
  }

  lemma MapAppend<A, B>(f: A -> B, a: seq<A>, b: seq<A>)
    ensures Map(f, a + b) == Map(f, a) + Map(f, b)
  {
    var l, r := Map(f, a + b), Map(f, a) + Map(f, b);
    forall k | 0 <= k < |l| ensures l[k] == r[k] {
      if k < |a| {
        assert (a + b)[k] == a[k];
      } else {
        assert (a + b)[k] == b[k - |a|];
      }
    }
  }

  /** One more element: its value under `f`, if present, follows the values kept so far. */
  lemma SomesMapNext<A, B>(f: A -> Option<B>, xs: seq<A>, i: nat, kept: seq<B>, y: Option<B>)
    requires i < |xs| && y == f(xs[i]) && kept == Somes(Map(f, xs[..i]))
    ensures Somes(Map(f, xs[..i + 1])) == if y.Some? then kept + [y.value] else kept
  {
    var ys := Map(f, xs[..i + 1]);
    assert ys[..i] == Map(f, xs[..i]);
    assert ys[i] == y;
  }

  /** When every option is present, all values are kept, position by position. */
  lemma {:induction false} SomesAll<T>(xs: seq<Option<T>>)
    requires forall k :: 0 <= k < |xs| ==> xs[k].Some?
    ensures |Somes(xs)| == |xs|
    ensures forall k :: 0 <= k < |xs| ==> Somes(xs)[k] == xs[k].value
    decreases |xs|
  {
    if xs != [] {
      var init := xs[..|xs| - 1];
      assert forall k :: 0 <= k < |init| ==> init[k] == xs[k];
      SomesAll(init);
      var r := Somes(xs);
      assert r == Somes(init) + [xs[|xs| - 1].value];
      forall k | 0 <= k < |xs| ensures r[k] == xs[k].value {
        if k < |init| {
          assert r[k] == Somes(init)[k];
        }
      }
    }
  }

  /** When no option is present, nothing is kept. */
  lemma {:induction false} SomesNone<T>(xs: seq<Option<T>>)
    requires forall k :: 0 <= k < |xs| ==> xs[k].None?
    ensures Somes(xs) == []
    decreases |xs|
  {
    if xs != [] {
      var init := xs[..|xs| - 1];
      assert forall k :: 0 <= k < |init| ==> init[k] == xs[k];
      SomesNone(init);
    }
  }
}

/**
 * The Python `str` operations the generator relies on, over `seq<char>`
 * (one `char` per code point, as Python indexes a `str`).
 * Whitespace is Python's (`str.isspace`, which `strip()` and `\s` both use);
 * letters, digits, case mapping and `\w` are restricted to ASCII.
 */
module PyStr {
  import opened Options

  lemma AppendAssoc<T>(a: seq<T>, b: seq<T>, c: seq<T>)
    ensures a + (b + c) == a + b + c
  {
  }

  /** A slice that lies inside the left operand of a concatenation. */
  lemma SliceOfAppend<T>(l: seq<T>, r: seq<T>, i: nat, j: nat)
    requires i <= j <= |l|
    ensures (l + r)[i..j] == l[i..j]
  {
  }

  /** A suffix that starts inside the left operand of a concatenation. */
  lemma DropOfAppend<T>(l: seq<T>, r: seq<T>, n: nat)
    requires n <= |l|
    ensures (l + r)[n..] == l[n..] + r
  {
  }

  lemma TakeDrop<T>(s: seq<T>, n: nat)
    requires n <= |s|
    ensures s[..n] + s[n..] == s
  {
  }

  /** Extending a prefix by one element (used by loops that build a list one item at a time). */
  lemma TakeNext<T>(xs: seq<T>, i: nat)
    requires i < |xs|
    ensures xs[..i + 1] == xs[..i] + [xs[i]]
  {
  }

  /** Python's `str.isspace()` for a single code point. */
  predicate IsSpace(c: char) {
    ('\t' <= c <= '\r') || ('\U{1C}' <= c <= ' ') || c == '\U{85}' || c == '\U{A0}'
    || c == '\U{1680}' || ('\U{2000}' <= c <= '\U{200A}') || c == '\U{2028}' || c == '\U{2029}'
    || c == '\U{202F}' || c == '\U{205F}' || c == '\U{3000}'
  }

  predicate IsDigit(c: char) { '0' <= c <= '9' }
  predicate IsUpper(c: char) { 'A' <= c <= 'Z' }
  predicate IsLower(c: char) { 'a' <= c <= 'z' }
  predicate IsLetter(c: char) { IsUpper(c) || IsLower(c) }

  /** `\w`: letters, digits and the underscore. */
  predicate IsWordChar(c: char) { IsLetter(c) || IsDigit(c) || c == '_' }

  predicate AllDigits(s: seq<char>) { forall i :: 0 <= i < |s| ==> IsDigit(s[i]) }
  predicate AllSpace(s: seq<char>) { forall i :: 0 <= i < |s| ==> IsSpace(s[i]) }

  /** `pat` occurs in `s` at index `i`. */
  predicate OccursAt(s: seq<char>, i: nat, pat: seq<char>) {
    i + |pat| <= |s| && s[i..i + |pat|] == pat
  }

  function LowerChar(c: char): char {
    if IsUpper(c) then (c as int + 32) as char else c
  }

  function UpperChar(c: char): char {
    if IsLower(c) then (c as int - 32) as char else c
  }

  /** `str.lower()`. */
  function Lower(s: seq<char>): (r: seq<char>)
    ensures |r| == |s|
    ensures forall i :: 0 <= i < |s| ==> !IsUpper(r[i])
    ensures forall i :: 0 <= i < |s| && !IsUpper(s[i]) ==> r[i] == s[i]
    ensures forall i :: 0 <= i < |s| && IsUpper(s[i]) ==> r[i] as int == s[i] as int + 32
  {
    seq(|s|, i requires 0 <= i < |s| => LowerChar(s[i]))
  }

  /** `str.lstrip()`: drops the leading whitespace and nothing else. */
  function TrimStart(s: seq<char>): (r: seq<char>)
    ensures |r| <= |s| && r == s[|s| - |r|..]
    ensures AllSpace(s[..|s| - |r|])
    ensures r == [] || !IsSpace(r[0])
    decreases |s|
  {
    if s != [] && IsSpace(s[0]) then TrimStart(s[1..]) else s
  }

  /** `str.rstrip()`: drops the trailing whitespace and nothing else. */
  function TrimEnd(s: seq<char>): (r: seq<char>)
    ensures |r| <= |s| && r == s[..|r|]
    ensures AllSpace(s[|r|..])
    ensures r == [] || !IsSpace(r[|r| - 1])
    decreases |s|
  {
    if s != [] && IsSpace(s[|s| - 1]) then
      var r := TrimEnd(s[..|s| - 1]);
      assert s[|r|..] == s[..|s| - 1][|r|..] + [s[|s| - 1]];
      r
    else s
  }

  /** `str.strip()`: removes whitespace at both ends. */
  function Strip(s: seq<char>): (r: seq<char>)
    ensures |r| <= |s|
    ensures r == [] || (!IsSpace(r[0]) && !IsSpace(r[|r| - 1]))
  {
    TrimEnd(TrimStart(s))
  }

  /** What `str.strip()` leaves is the infix of `s` between two all-whitespace ends. */
  lemma StripInfix(s: seq<char>) returns (i: nat)
    ensures i + |Strip(s)| <= |s| && Strip(s) == s[i..i + |Strip(s)|]
    ensures AllSpace(s[..i]) && AllSpace(s[i + |Strip(s)|..])
  {
    var t := TrimStart(s);
    var r := TrimEnd(t);
    i := |s| - |t|;
    SliceOfSuffix(s, i, |r|);
    assert r == s[i..i + |r|] && AllSpace(s[..i]);
    assert AllSpace(s[i + |r|..]) by {
      assert s[i + |r|..] == t[|r|..];
    }
  }

  /** `lstrip` of leading whitespace followed by text that starts with a non-space is that text. */
  lemma TrimStartOf(x: seq<char>, t: seq<char>)
    requires AllSpace(x) && (t == [] || !IsSpace(t[0]))
    ensures TrimStart(x + t) == t
  {
    var s := x + t;
    var r := TrimStart(s);
    assert s[|s| - |t|..] == t;
  }

  /** `rstrip` of text that ends with a non-space followed by whitespace is that text. */
  lemma TrimEndOf(t: seq<char>, y: seq<char>)
    requires AllSpace(y) && (t == [] || !IsSpace(t[|t| - 1]))
    ensures TrimEnd(t + y) == t
  {
    var s := t + y;
    var r := TrimEnd(s);
    assert s[..|t|] == t;
  }

  /** `rstrip` keeps everything up to a last non-space character and a prefix of what follows it. */
  lemma TrimEndKeeps(x: seq<char>, rest: seq<char>) returns (y: seq<char>)
    requires x != [] && !IsSpace(x[|x| - 1])
    ensures TrimEnd(x + rest) == x + y && y <= rest
  {
    var s := x + rest;
    var r := TrimEnd(s);
    assert |r| >= |x| by {
      assert forall k :: |r| <= k < |s| ==> IsSpace(s[k]) by {
        forall k | |r| <= k < |s| ensures IsSpace(s[k]) {
          assert s[k] == s[|r|..][k - |r|];
        }
      }
      assert !IsSpace(s[|x| - 1]);
    }
    y := r[|x|..];
    assert r == s[..|x|] + y;
    assert s[..|x|] == x;
  }

  /** Whitespace on both sides of a text without whitespace at its ends is what `strip` removes. */
  lemma StripOf(x: seq<char>, t: seq<char>, y: seq<char>)
    requires AllSpace(x) && AllSpace(y)
    requires t == [] || (!IsSpace(t[0]) && !IsSpace(t[|t| - 1]))
    ensures Strip(x + t + y) == t
  {
    if t == [] {
      AllSpaceAppend(x, y);
      assert x + t + y == (x + y) + [];
      TrimStartOf(x + y, []);
    } else {
      assert x + t + y == x + (t + y);
      TrimStartOf(x, t + y);
      TrimEndOf(t, y);
    }
  }

  /** A text without whitespace at its ends is left as it is by `strip`. */
  lemma StripClean(t: seq<char>)
    requires t == [] || (!IsSpace(t[0]) && !IsSpace(t[|t| - 1]))
    ensures Strip(t) == t
  {
    StripOf([], t, []);
    assert [] + t + [] == t;
  }

  /** Trailing whitespace does not change what `strip` leaves. */
  lemma StripTrailingSpaces(a: seq<char>, b: seq<char>)
    requires AllSpace(b)
    ensures Strip(a + b) == Strip(a)
  {
    var x, y := StripParts(a);
    AllSpaceAppend(y, b);
    AppendAssoc(x + Strip(a), y, b);
    StripOf(x, Strip(a), y + b);
  }

  /** `s` is what `strip` leaves with the whitespace it removed on either side. */
  lemma StripParts(s: seq<char>) returns (x: seq<char>, y: seq<char>)
    ensures s == x + Strip(s) + y && AllSpace(x) && AllSpace(y)
  {
    var t := TrimStart(s);
    var r := TrimEnd(t);
    x, y := s[..|s| - |t|], t[|r|..];
    TakeDrop(s, |s| - |t|);
    TakeDrop(t, |r|);
    AppendAssoc(x, r, y);
  }

  lemma AllSpaceAppend(x: seq<char>, y: seq<char>)
    requires AllSpace(x) && AllSpace(y)
    ensures AllSpace(x + y)
  {
    assert forall k :: 0 <= k < |x + y| ==> (x + y)[k] == if k < |x| then x[k] else y[k - |x|];
  }

  lemma SliceOfSuffix<T>(s: seq<T>, i: nat, n: nat)
    requires i + n <= |s|
    ensures s[i..][..n] == s[i..i + n] && s[i..][n..] == s[i + n..]
  {
  }

  /** Stripping cannot introduce a character that was not there. */
  lemma StripKeepsAbsent(s: seq<char>, c: char)
    requires c !in s
    ensures c !in Strip(s)
  {
    var r := Strip(s);
    var i := StripInfix(s);
    forall k | 0 <= k < |r| ensures r[k] != c {
      assert r[k] == s[i + k];
    }
  }

  /** `s.split('\n')[0]`: everything before the first newline. */
  function FirstLine(s: seq<char>): (r: seq<char>)
    ensures r <= s
    ensures '\n' !in r
    ensures |r| < |s| ==> s[|r|] == '\n'
  {
    if s == [] || s[0] == '\n' then [] else [s[0]] + FirstLine(s[1..])
  }

  /** `str.strip(c)`: removes every leading and trailing `c`. */
  function StripChar(s: seq<char>, c: char): (r: seq<char>)
    ensures r == [] || (r[0] != c && r[|r| - 1] != c)
    ensures (s == [] || (s[0] != c && s[|s| - 1] != c)) ==> r == s
    decreases |s|
  {
    if s == [] then []
    else if s[0] == c then StripChar(s[1..], c)
    else if s[|s| - 1] == c then StripChar(s[..|s| - 1], c)
    else s
  }

  /** What `str.strip(c)` leaves is an infix of `s`. */
  lemma {:induction false} StripCharInfix(s: seq<char>, c: char) returns (i: nat, j: nat)
    ensures i <= j <= |s| && StripChar(s, c) == s[i..j]
    ensures forall k :: 0 <= k < i ==> s[k] == c
    ensures forall k :: j <= k < |s| ==> s[k] == c
    decreases |s|
  {
    if s == [] {
      i, j := 0, 0;
    } else if s[0] == c {
      var i', j' := StripCharInfix(s[1..], c);
      i, j := i' + 1, j' + 1;
      assert forall k :: 1 <= k < |s| ==> s[k] == s[1..][k - 1];
    } else if s[|s| - 1] == c {
      i, j := StripCharInfix(s[..|s| - 1], c);
      assert forall k :: 0 <= k < |s| - 1 ==> s[k] == s[..|s| - 1][k];
    } else {
      i, j := 0, |s|;
    }
  }

  function SplitOnceFrom(s: seq<char>, sep: seq<char>, i: nat): (r: Option<(seq<char>, seq<char>)>)
    requires |sep| > 0 && i <= |s|
    requires forall k :: 0 <= k < i ==> !OccursAt(s, k, sep)
    ensures r.Some? ==> s == r.value.0 + sep + r.value.1
    ensures r.Some? ==> forall k :: 0 <= k < |r.value.0| ==> !OccursAt(s, k, sep)
    ensures r.None? ==> forall k :: 0 <= k <= |s| ==> !OccursAt(s, k, sep)
    decreases |s| - i
  {
    if i + |sep| > |s| then None
    else if s[i..i + |sep|] == sep then
      assert s == s[..i] + sep + s[i + |sep|..];
      Some((s[..i], s[i + |sep|..]))
    else SplitOnceFrom(s, sep, i + 1)
  }

  /**
   * `s.split(sep, 1)`: `Some((before, after))` around the first occurrence of
   * `sep` when there are two parts, `None` when `sep` does not occur.
   */
  function SplitOnce(s: seq<char>, sep: seq<char>): (r: Option<(seq<char>, seq<char>)>)
    requires |sep| > 0
    ensures r.Some? ==> s == r.value.0 + sep + r.value.1 && OccursAt(s, |r.value.0|, sep)
    ensures r.Some? ==> forall k :: 0 <= k < |r.value.0| ==> !OccursAt(s, k, sep)
    ensures r.None? ==> forall k :: 0 <= k <= |s| ==> !OccursAt(s, k, sep)
  {
    var r := SplitOnceFrom(s, sep, 0);
    if r.Some? then
      assert s[|r.value.0|..|r.value.0| + |sep|] == sep;
      r
    else r
  }

  /** `int(s)` for a string of decimal digits. */
  function DigitsValue(s: seq<char>): nat
    requires AllDigits(s)
  {
    if s == [] then 0 else 10 * DigitsValue(s[..|s| - 1]) + (s[|s| - 1] as int - '0' as int)
  }

  function DigitChar(d: nat): (c: char)
    requires d < 10
    ensures IsDigit(c) && c as int - '0' as int == d
  {
    ('0' as int + d) as char
  }

  /** `str(n)` for a non-negative integer: decimal digits without a leading zero. */
  function NatToString(n: nat): (r: seq<char>)
    ensures |r| > 0 && AllDigits(r)
    ensures |r| > 1 ==> r[0] != '0'
  {
    if n < 10 then [DigitChar(n)] else NatToString(n / 10) + [DigitChar(n % 10)]
  }

  /** `int(str(n)) == n`. */
  lemma {:induction false} NatToStringRoundTrip(n: nat)
    ensures DigitsValue(NatToString(n)) == n
  {
    var r := NatToString(n);
    if n >= 10 {
      NatToStringRoundTrip(n / 10);
      assert r[..|r| - 1] == NatToString(n / 10);
    }
  }

  /** How `str.title()` cases one character, given whether a letter precedes it. */
  function TitleCase(c: char, afterLetter: bool): char {
    if !IsLetter(c) then c else if afterLetter then LowerChar(c) else UpperChar(c)
  }

  function TitleFrom(s: seq<char>, afterLetter: bool): (r: seq<char>)
    ensures |r| == |s|
  {
    if s == [] then [] else [TitleCase(s[0], afterLetter)] + TitleFrom(s[1..], IsLetter(s[0]))
  }

  /**
   * `str.title()`: a letter that follows a letter is lower-cased, any other
   * letter is upper-cased, everything else is kept.
   */
  function Title(s: seq<char>): (r: seq<char>)
    ensures |r| == |s|
    ensures forall i :: 0 <= i < |s| && !IsLetter(s[i]) ==> r[i] == s[i]
    ensures forall i :: 0 <= i < |s| && IsLetter(s[i]) && (i == 0 || !IsLetter(s[i - 1])) ==> r[i] == UpperChar(s[i])
    ensures forall i :: 1 <= i < |s| && IsLetter(s[i - 1]) && IsLetter(s[i]) ==> r[i] == LowerChar(s[i])
    ensures s != [] && IsLetter(s[0]) ==> IsUpper(r[0])
    ensures forall i :: 1 <= i < |s| && IsLetter(s[i - 1]) && IsLetter(s[i]) ==> IsLower(r[i])
  {
    TitleFromChars(s, false);
    TitleFrom(s, false)
  }

  /** Each character is cased by whether the character before it (or `afterLetter`, at the start) is a letter. */
  lemma {:induction false} TitleFromChars(s: seq<char>, afterLetter: bool)
    ensures s != [] ==> TitleFrom(s, afterLetter)[0] == TitleCase(s[0], afterLetter)
    ensures forall i {:trigger TitleFrom(s, afterLetter)[i]} :: 1 <= i < |s| ==> TitleFrom(s, afterLetter)[i] == TitleCase(s[i], IsLetter(s[i - 1]))
  {
    if s != [] {
      TitleFromChars(s[1..], IsLetter(s[0]));
      var r := TitleFrom(s, afterLetter);
      assert r[1..] == TitleFrom(s[1..], IsLetter(s[0]));
      forall i | 1 <= i < |s|
        ensures r[i] == TitleCase(s[i], IsLetter(s[i - 1]))
      {
        assert r[i] == r[1..][i - 1] && s[i] == s[1..][i - 1];
        if i > 1 {
          assert s[1..][i - 2] == s[i - 1];
        }
      }
    }
  }

  /** Lower-case letters that follow a letter are kept as they are. */
  lemma {:induction false} TitleFromLowerRun(s: seq<char>)
    requires forall i :: 0 <= i < |s| ==> IsLower(s[i])
    ensures TitleFrom(s, true) == s
  {
    if s != [] {
      assert forall i :: 0 <= i < |s[1..]| ==> s[1..][i] == s[i + 1];
      TitleFromLowerRun(s[1..]);
      assert s == [s[0]] + s[1..];
    }
  }

  /** A lower-case word is title-cased by upper-casing its first letter. */
  lemma TitleOfLowerWord(s: seq<char>)
    requires s != [] && forall i :: 0 <= i < |s| ==> IsLower(s[i])
    ensures Title(s) == [UpperChar(s[0])] + s[1..]
  {
    assert forall i :: 0 <= i < |s[1..]| ==> s[1..][i] == s[i + 1];
    TitleFromLowerRun(s[1..]);
  }

  /** `str.replace(pat, rep)`: every non-overlapping occurrence, scanning left to right. */
  function ReplaceAll(s: seq<char>, pat: seq<char>, rep: seq<char>): seq<char>
    requires |pat| > 0
    decreases |s|
  {
    if s == [] then []
    else if pat <= s then rep + ReplaceAll(s[|pat|..], pat, rep)
    else [s[0]] + ReplaceAll(s[1..], pat, rep)
  }

  /** Text in which `pat` does not occur is left unchanged by `replace`. */
  lemma {:induction false} ReplaceAllAbsent(s: seq<char>, pat: seq<char>, rep: seq<char>)
    requires |pat| > 0
    requires forall i :: 0 <= i < |s| ==> !(pat <= s[i..])
    ensures ReplaceAll(s, pat, rep) == s
  {
    if s != [] {
      assert !(pat <= s[0..]);
      forall i | 0 <= i < |s| - 1 ensures !(pat <= s[1..][i..]) {
        assert s[1..][i..] == s[i + 1..];
      }
      ReplaceAllAbsent(s[1..], pat, rep);
    }
  }

  /**
   * `replace` on a text whose one occurrence of `pat` sits between `a` and `b`
   * substitutes exactly that occurrence.
   */
  lemma {:induction false} ReplaceAllSingle(a: seq<char>, pat: seq<char>, b: seq<char>, rep: seq<char>)
    requires |pat| > 0
    requires forall i :: 0 <= i < |a| ==> !(pat <= (a + pat + b)[i..])
    requires forall i :: 0 <= i < |b| ==> !(pat <= b[i..])
    ensures ReplaceAll(a + pat + b, pat, rep) == a + rep + b
  {
    var s := a + pat + b;
    if a == [] {
      assert s == pat + b;
      assert pat <= s;
      assert s[|pat|..] == b;
      ReplaceAllAbsent(b, pat, rep);
    } else {
      assert !(pat <= s[0..]);
      assert s[1..] == a[1..] + pat + b;
      forall i | 0 <= i < |a| - 1 ensures !(pat <= (a[1..] + pat + b)[i..]) {
        assert (a[1..] + pat + b)[i..] == s[i + 1..];
      }
      ReplaceAllSingle(a[1..], pat, b, rep);
      ReplaceAllStep(s, pat, rep);
      assert [a[0]] + (a[1..] + rep + b) == a + rep + b by {
        assert a == [a[0]] + a[1..];
        AppendAssoc([a[0]], a[1..] + rep, b);
        AppendAssoc([a[0]], a[1..], rep);
      }
    }
  }

  /** Where `pat` does not start, `replace` keeps the first character. */
  lemma ReplaceAllStep(s: seq<char>, pat: seq<char>, rep: seq<char>)
    requires |pat| > 0 && s != [] && !(pat <= s)
    ensures ReplaceAll(s, pat, rep) == [s[0]] + ReplaceAll(s[1..], pat, rep)
  {
  }
}
