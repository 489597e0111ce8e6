/**
 * The fixed regular expressions of the plan parser, each written out as the
 * search Python's `re` module performs for that one pattern: the leftmost
 * starting position wins, a lazy group is as short as the rest of the pattern
 * allows, a greedy one as long, and `.` does not match a newline unless the
 * pattern is compiled with DOTALL. A matcher looks at a suffix of the text:
 * "a match at s" is a match at the position where `s` begins.
 */
module Patterns {
  import opened Options
  import opened PyStr

  const WeekMarkerText: seq<char> := "## WEEK "
  const DayMarkerText: seq<char> := "**\U{1F4A5} MACHINE MODE: DAY "
  const DashText: seq<char> := "\U{2013} "
  const DayWordText: seq<char> := "DAY "
  const DsaHeader: seq<char> := "\U{1F3AF} **DSA: "
  const SystemDesignHeader: seq<char> := "\U{1F9E0} **SYSTEM DESIGN: "
  const HeaderClose: seq<char> := "**\n"
  const BrainStop: seq<char> := "\U{1F9E0}"
  const RuleStop: seq<char> := "---"
  const GoalText: seq<char> := "\U{1F4CC} Goal: "
  const LcText: seq<char> := "* LC "
  const BulletText: seq<char> := "* "
  const ColonSpace: seq<char> := ": "

  // ---------------------------------------------------------------------------
  // Runs of one character class

  /** `\d+` taken greedily: the length of the run of digits at the start of `s`. */
  function DigitRun(s: seq<char>): (n: nat)
    ensures n <= |s| && AllDigits(s[..n])
    ensures n < |s| ==> !IsDigit(s[n])
  {
    if s != [] && IsDigit(s[0]) then
      var n := 1 + DigitRun(s[1..]);
      assert s[..n] == [s[0]] + s[1..][..n - 1];
      n
    else 0
  }

  /** `\s*` taken greedily: the length of the run of whitespace at the start of `s`. */
  function SpaceRun(s: seq<char>): (n: nat)
    ensures n <= |s| && AllSpace(s[..n])
    ensures n < |s| ==> !IsSpace(s[n])
  {
    if s != [] && IsSpace(s[0]) then
      var n := 1 + SpaceRun(s[1..]);
      assert s[..n] == [s[0]] + s[1..][..n - 1];
      n
    else 0
  }

  lemma {:induction false} DigitRunOfDigits(d: seq<char>, rest: seq<char>)
    requires AllDigits(d)
    requires rest == [] || !IsDigit(rest[0])
    ensures DigitRun(d + rest) == |d|
  {
    if d != [] {
      assert (d + rest)[1..] == d[1..] + rest;
      DigitRunOfDigits(d[1..], rest);
    }
  }

  lemma {:induction false} SpaceRunOfSpaces(w: seq<char>, rest: seq<char>)
    requires AllSpace(w)
    requires rest == [] || !IsSpace(rest[0])
    ensures SpaceRun(w + rest) == |w|
  {
    if w != [] {
      assert (w + rest)[1..] == w[1..] + rest;
      SpaceRunOfSpaces(w[1..], rest);
    }
  }

  // ---------------------------------------------------------------------------
  // re.search: the leftmost position at which a matcher succeeds

  /** The first position `p` (from `from`) at which `at` matches `s[p..]`. */
  function FirstMatchFrom<T>(s: seq<char>, at: seq<char> -> Option<T>, from: nat): (r: Option<nat>)
    requires from <= |s|
    ensures r.Some? ==> from <= r.value <= |s| && at(s[r.value..]).Some?
    decreases |s| - from
  {
    if at(s[from..]).Some? then Some(from)
    else if from == |s| then None
    else FirstMatchFrom(s, at, from + 1)
  }

  /** A position where `at` matches, with no match before it from `from`, is the one found. */
  lemma {:induction false} FirstMatchAt<T>(s: seq<char>, at: seq<char> -> Option<T>, from: nat, p: nat)
    requires from <= p <= |s|
    requires at(s[p..]).Some?
    requires forall q :: from <= q < p ==> at(s[q..]).None?
    ensures FirstMatchFrom(s, at, from) == Some(p)
    decreases p - from
  {
    if from < p {
      FirstMatchAt(s, at, from + 1, p);
    }
  }

  /** Some position is found when `at` matches at `p` or later. */
  lemma {:induction false} FirstMatchFinds<T>(s: seq<char>, at: seq<char> -> Option<T>, from: nat, p: nat)
    requires from <= p <= |s|
    requires at(s[p..]).Some?
    ensures FirstMatchFrom(s, at, from).Some?
    decreases p - from
  {
    if at(s[from..]).None? {
      FirstMatchFinds(s, at, from + 1, p);
    }
  }

  /** No match is found before the position found. */
  lemma {:induction false} FirstMatchIsFirst<T>(s: seq<char>, at: seq<char> -> Option<T>, from: nat)
    requires from <= |s| && FirstMatchFrom(s, at, from).Some?
    ensures forall q :: from <= q < FirstMatchFrom(s, at, from).value ==> at(s[q..]).None?
    decreases |s| - from
  {
    if at(s[from..]).None? {
      FirstMatchIsFirst(s, at, from + 1);
    }
  }

  /** `re.search`: the match at the leftmost position where there is one. */
  function Search<T>(s: seq<char>, at: seq<char> -> Option<T>): Option<T>
  {
    match FirstMatchFrom(s, at, 0)
    case Some(p) => at(s[p..])
    case None => None
  }

  /** The position at which a successful search matched. */
  lemma SearchPosition<T>(s: seq<char>, at: seq<char> -> Option<T>) returns (p: nat)
    requires Search(s, at).Some?
    ensures p <= |s| && at(s[p..]) == Search(s, at)
    ensures forall q :: 0 <= q < p ==> at(s[q..]).None?
  {
    p := FirstMatchFrom(s, at, 0).value;
    FirstMatchIsFirst(s, at, 0);
  }

  /** A search succeeds whenever the pattern matches somewhere. */
  lemma SearchFinds<T>(s: seq<char>, at: seq<char> -> Option<T>, p: nat)
    requires p <= |s| && at(s[p..]).Some?
    ensures Search(s, at).Some?
  {
    FirstMatchFinds(s, at, 0, p);
  }

  /** A search fails when the pattern matches nowhere. */
  lemma SearchNone<T>(s: seq<char>, at: seq<char> -> Option<T>)
    requires forall p :: 0 <= p <= |s| ==> at(s[p..]).None?
    ensures Search(s, at).None?
  {
  }

  /** The leftmost match is the one a search returns. */
  lemma SearchFirst<T>(s: seq<char>, at: seq<char> -> Option<T>, p: nat)
    requires p <= |s| && at(s[p..]).Some?
    requires forall q :: 0 <= q < p ==> at(s[q..]).None?
    ensures Search(s, at) == at(s[p..])
  {
    FirstMatchAt(s, at, 0, p);
  }

  /** `re.search` finds a match exactly when the pattern matches at some position. */
  lemma SearchIff<T>(s: seq<char>, at: seq<char> -> Option<T>)
    ensures Search(s, at).Some? <==> exists p :: 0 <= p <= |s| && at(s[p..]).Some?
  {
    if Search(s, at).Some? {
      var p := SearchPosition(s, at);
    } else {
      forall p | 0 <= p <= |s| ensures at(s[p..]).None? {
        if at(s[p..]).Some? {
          SearchFinds(s, at, p);
        }
      }
    }
  }

  // ---------------------------------------------------------------------------
  // re.split on the week and day markers

  datatype Marker = WeekMarker | DayMarker

  /**
   * The length of the split marker matched at `s`, 0 when there is none:
   * `^## WEEK \d+:` (MULTILINE, so only where a line begins, which `bol`
   * says) or `\*\*💥 MACHINE MODE: DAY \d+`. Both take the whole digit run:
   * backing off a digit can never make the rest match.
   */
  function MarkerLen(m: Marker, s: seq<char>, bol: bool): (n: nat)
    ensures n <= |s|
    ensures n > 0 && m == DayMarker ==> n < |s| ==> !IsDigit(s[n])
  {
    match m
    case WeekMarker =>
      if bol && WeekMarkerText <= s then
        var d := DigitRun(s[|WeekMarkerText|..]);
        var k := |WeekMarkerText| + d;
        if d > 0 && k < |s| && s[k] == ':' then k + 1 else 0
      else 0
    case DayMarker =>
      if DayMarkerText <= s then
        var d := DigitRun(s[|DayMarkerText|..]);
        if d > 0 then |DayMarkerText| + d else 0
      else 0
  }

  /**
   * `re.split(marker, s)`: the pieces of `s` between the markers found by
   * scanning left to right; a scan resumes where a marker ends. `bol` says
   * whether `s` begins a line (the position before it is a newline or the
   * start of the text).
   */
  function Split(m: Marker, s: seq<char>, bol: bool): (r: seq<seq<char>>)
    ensures |r| >= 1 && r[0] <= s
    decreases |s|
  {
    if s == [] then [[]]
    else
      var n := MarkerLen(m, s, bol);
      if n > 0 then [[]] + Split(m, s[n..], s[n - 1] == '\n')
      else
        var rest := Split(m, s[1..], s[0] == '\n');
        [[s[0]] + rest[0]] + rest[1..]
  }

  /**
   * The number of positions of `s` at which the marker matches, scanning
   * every position (none is skipped).
   */
  function MarkerCount(m: Marker, s: seq<char>, bol: bool): nat
    decreases |s|
  {
    if s == [] then 0
    else (if MarkerLen(m, s, bol) > 0 then 1 else 0) + MarkerCount(m, s[1..], s[0] == '\n')
  }

  /** No marker can start inside another one. */
  lemma MarkersDoNotOverlap(m: Marker, s: seq<char>, bol: bool, j: nat)
    requires 0 < j < MarkerLen(m, s, bol)
    ensures MarkerLen(m, s[j..], s[j - 1] == '\n') == 0
  {
    match m
    case WeekMarker =>
      WeekMarkerInside(s, j);
    case DayMarker =>
      var n := |DayMarkerText|;
      if j >= n {
        var d := DigitRun(s[n..]);
        assert IsDigit(s[j]) by {
          assert s[j] == s[n..][..d][j - n];
        }
      }
      DayMarkerInside(s, j);
  }

  /** No line begins inside `## WEEK <digits>`. */
  lemma WeekMarkerInside(s: seq<char>, j: nat)
    requires WeekMarkerText <= s && 0 < j <= |WeekMarkerText| + DigitRun(s[|WeekMarkerText|..])
    ensures s[j - 1] != '\n'
  {
    var d := DigitRun(s[|WeekMarkerText|..]);
    if j - 1 < |WeekMarkerText| {
      assert s[j - 1] == WeekMarkerText[j - 1];
    } else {
      assert s[j - 1] == s[|WeekMarkerText|..][..d][j - 1 - |WeekMarkerText|];
    }
  }

  /** The day marker cannot start again inside itself or inside its number. */
  lemma DayMarkerInside(s: seq<char>, j: nat)
    requires DayMarkerText <= s && 0 < j < |s|
    requires j < |DayMarkerText| || IsDigit(s[j])
    ensures !(DayMarkerText <= s[j..])
  {
    var n := |DayMarkerText|;
    if j == 1 {
      assert s[j..][1] == DayMarkerText[2] != DayMarkerText[1];
      NotPrefixAt(DayMarkerText, s[j..], 1);
    } else if j < n {
      DayMarkerOneStarPair(j);
      assert s[j..][0] == DayMarkerText[j];
      NotPrefixAt(DayMarkerText, s[j..], 0);
    } else {
      assert s[j..][0] == s[j];
      NotPrefixAt(DayMarkerText, s[j..], 0);
    }
  }

  /** The day marker has no star after its opening two. */
  lemma DayMarkerOneStarPair(j: nat)
    requires 2 <= j < |DayMarkerText|
    ensures DayMarkerText[j] != '*'
  {
  }

  /** A text that differs from `p` at position `x` does not start with `p`. */
  lemma NotPrefixAt(p: seq<char>, t: seq<char>, x: nat)
    requires x < |p| && x < |t| && t[x] != p[x]
    ensures !(p <= t)
  {
  }

  /** A week marker never runs past the end of a line: one at `x` is decided by `x` up to its newline. */
  lemma WeekMarkerLineEnd(x: seq<char>, r: seq<char>, bol: bool)
    requires x != [] && x[|x| - 1] == '\n'
    ensures MarkerLen(WeekMarker, x + r, bol) == MarkerLen(WeekMarker, x, bol)
  {
    var s := x + r;
    var w := |WeekMarkerText|;
    assert '\n' !in WeekMarkerText;
    if |x| <= w {
      assert s[|x| - 1] == '\n' && x[|x| - 1] == '\n';
      assert !(WeekMarkerText <= s) && !(WeekMarkerText <= x);
    } else {
      assert s[..w] == x[..w];
      var y := x[w..];
      assert s[w..] == y + r;
      assert DigitRun(y) < |y| by {
        assert y[|y| - 1] == '\n';
      }
      DigitRunWithin(y, r);
      var k := w + DigitRun(y);
      assert k < |x| && s[k] == x[k];
    }
  }

  lemma {:induction false} MarkerCountSkips(m: Marker, s: seq<char>, bol: bool, j: nat)
    requires 0 < j <= MarkerLen(m, s, bol)
    ensures MarkerCount(m, s[j..], s[j - 1] == '\n')
            == MarkerCount(m, s[MarkerLen(m, s, bol)..], s[MarkerLen(m, s, bol) - 1] == '\n')
    decreases MarkerLen(m, s, bol) - j
  {
    var n := MarkerLen(m, s, bol);
    if j < n {
      MarkersDoNotOverlap(m, s, bol, j);
      assert s[j..][1..] == s[j + 1..];
      MarkerCountSkips(m, s, bol, j + 1);
    }
  }

  /** `re.split` yields one piece more than there are marker positions. */
  lemma {:induction false} SplitCount(m: Marker, s: seq<char>, bol: bool)
    ensures |Split(m, s, bol)| == MarkerCount(m, s, bol) + 1
    decreases |s|
  {
    if s != [] {
      var n := MarkerLen(m, s, bol);
      if n > 0 {
        SplitCount(m, s[n..], s[n - 1] == '\n');
        if n > 1 {
          MarkerCountSkips(m, s, bol, 1);
        }
      } else {
        SplitCount(m, s[1..], s[0] == '\n');
      }
    }
  }

  /** Whether position `i` of `s` begins a line. */
  function BolAt(s: seq<char>, i: nat, bol: bool): bool
    requires i <= |s|
  {
    if i == 0 then bol else s[i - 1] == '\n'
  }

  /**
   * Text before the first marker only ever belongs to the first piece: when
   * no marker starts inside `pre`, the later pieces are those of `rest`,
   * split with `rbol` saying whether `rest` begins a line.
   */
  lemma {:induction false} SplitPreamble(m: Marker, pre: seq<char>, rest: seq<char>, bol: bool, rbol: bool)
    requires rbol == if pre == [] then bol else pre[|pre| - 1] == '\n'
    requires forall i :: 0 <= i < |pre| ==> MarkerLen(m, (pre + rest)[i..], BolAt(pre + rest, i, bol)) == 0
    ensures Split(m, pre + rest, bol) == [pre + Split(m, rest, rbol)[0]] + Split(m, rest, rbol)[1..]
    decreases |pre|
  {
    var r := Split(m, rest, rbol);
    if pre == [] {
      assert pre + rest == rest;
      assert pre + r[0] == r[0];
      assert r == [r[0]] + r[1..];
    } else {
      PreambleFirst(m, pre, rest, bol);
      PreambleTail(m, pre, rest, bol);
      SplitPreamble(m, pre[1..], rest, pre[0] == '\n', rbol);
      PreambleStep(m, pre, rest, bol, r);
    }
  }

  /** One step of `SplitPreamble`: a first character where no marker starts joins the first piece. */
  lemma PreambleStep(m: Marker, pre: seq<char>, rest: seq<char>, bol: bool, r: seq<seq<char>>)
    requires pre != [] && MarkerLen(m, pre + rest, bol) == 0 && |r| >= 1
    requires Split(m, pre[1..] + rest, pre[0] == '\n') == [pre[1..] + r[0]] + r[1..]
    ensures Split(m, pre + rest, bol) == [pre + r[0]] + r[1..]
  {
    var s := pre + rest;
    var tail := pre[1..];
    assert s[1..] == tail + rest;
    SplitNoMarker(m, s, bol);
    assert pre + r[0] == [pre[0]] + (tail + r[0]) by {
      assert pre == [pre[0]] + tail;
      AppendAssoc([pre[0]], tail, r[0]);
    }
  }

  lemma PreambleFirst(m: Marker, pre: seq<char>, rest: seq<char>, bol: bool)
    requires pre != []
    requires forall i :: 0 <= i < |pre| ==> MarkerLen(m, (pre + rest)[i..], BolAt(pre + rest, i, bol)) == 0
    ensures MarkerLen(m, pre + rest, bol) == 0
  {
    var s := pre + rest;
    assert MarkerLen(m, s[0..], BolAt(s, 0, bol)) == 0;
    assert s[0..] == s;
  }

  /** The no-marker condition of a preamble carries over to the preamble without its first character. */
  lemma PreambleTail(m: Marker, pre: seq<char>, rest: seq<char>, bol: bool)
    requires pre != []
    requires forall i :: 0 <= i < |pre| ==> MarkerLen(m, (pre + rest)[i..], BolAt(pre + rest, i, bol)) == 0
    ensures var tail := pre[1..];
      forall i :: 0 <= i < |tail| ==> MarkerLen(m, (tail + rest)[i..], BolAt(tail + rest, i, pre[0] == '\n')) == 0
  {
    var s := pre + rest;
    var tail := pre[1..];
    forall i | 0 <= i < |tail|
      ensures MarkerLen(m, (tail + rest)[i..], BolAt(tail + rest, i, pre[0] == '\n')) == 0
    {
      assert (tail + rest)[i..] == s[i + 1..];
      assert BolAt(tail + rest, i, pre[0] == '\n') == BolAt(s, i + 1, bol);
      assert MarkerLen(m, s[i + 1..], BolAt(s, i + 1, bol)) == 0;
    }
  }

  /**
   * `re.split` cuts at the leftmost marker: the first piece is the text before
   * it, and the remaining pieces are the split of the text after it.
   */
  lemma SplitAtFirst(m: Marker, s: seq<char>, bol: bool, p: nat) returns (n: nat)
    requires p < |s| && MarkerLen(m, s[p..], BolAt(s, p, bol)) > 0
    requires forall q :: 0 <= q < p ==> MarkerLen(m, s[q..], BolAt(s, q, bol)) == 0
    ensures n == MarkerLen(m, s[p..], BolAt(s, p, bol)) && p + n <= |s|
    ensures Split(m, s, bol) == [s[..p]] + Split(m, s[p + n..], s[p + n - 1] == '\n')
  {
    SplitAfterPreamble(m, s, bol, p);
    n := SplitAtMarkerIn(m, s, bol, p);
    JoinEmptyPiece(s[..p], Split(m, s[p..], BolAt(s, p, bol)), Split(m, s[p + n..], s[p + n - 1] == '\n'));
  }

  lemma SplitAfterPreamble(m: Marker, s: seq<char>, bol: bool, p: nat)
    requires p <= |s|
    requires forall q :: 0 <= q < p ==> MarkerLen(m, s[q..], BolAt(s, q, bol)) == 0
    ensures var r := Split(m, s[p..], BolAt(s, p, bol));
      Split(m, s, bol) == [s[..p] + r[0]] + r[1..]
  {
    assert s[..p] + s[p..] == s;
    SplitPreamble(m, s[..p], s[p..], bol, BolAt(s, p, bol));
  }

  lemma SplitAtMarkerIn(m: Marker, s: seq<char>, bol: bool, p: nat) returns (n: nat)
    requires p < |s| && MarkerLen(m, s[p..], BolAt(s, p, bol)) > 0
    ensures n == MarkerLen(m, s[p..], BolAt(s, p, bol)) && p + n <= |s|
    ensures Split(m, s[p..], BolAt(s, p, bol)) == [[]] + Split(m, s[p + n..], s[p + n - 1] == '\n')
  {
    n := MarkerLen(m, s[p..], BolAt(s, p, bol));
    SplitAtMarker(m, s[p..], BolAt(s, p, bol));
    assert s[p..][n..] == s[p + n..] && s[p..][n - 1] == s[p + n - 1];
  }

  lemma JoinEmptyPiece<T>(pre: seq<T>, r: seq<seq<T>>, after: seq<seq<T>>)
    requires r == [[]] + after
    ensures [pre + r[0]] + r[1..] == [pre] + after
  {
    assert pre + [] == pre;
  }

  /** A marker at the start cuts off an empty first piece. */
  lemma SplitAtMarker(m: Marker, s: seq<char>, bol: bool)
    requires MarkerLen(m, s, bol) > 0
    ensures var n := MarkerLen(m, s, bol);
      Split(m, s, bol) == [[]] + Split(m, s[n..], s[n - 1] == '\n')
  {
  }

  /** Without any marker the split is the whole text. */
  lemma {:induction false} SplitWithoutMarker(m: Marker, s: seq<char>, bol: bool)
    requires forall q :: 0 <= q < |s| ==> MarkerLen(m, s[q..], BolAt(s, q, bol)) == 0
    ensures Split(m, s, bol) == [s]
    decreases |s|
  {
    if s != [] {
      assert MarkerLen(m, s[0..], BolAt(s, 0, bol)) == 0;
      assert s[0..] == s;
      SplitNoMarker(m, s, bol);
      NoMarkerTail(m, s, bol, |s|);
      SplitWithoutMarker(m, s[1..], s[0] == '\n');
      assert [s[0]] + s[1..] == s;
    }
  }

  /** Whether a position begins a line is the same in `s` and in `s` without its first character. */
  lemma BolShift(s: seq<char>, bol: bool, q: nat)
    requires q < |s|
    ensures BolAt(s[1..], q, s[0] == '\n') == BolAt(s, q + 1, bol)
  {
    if q > 0 {
      assert s[1..][q - 1] == s[q];
    }
  }

  /** Marker-free leading positions of `s` stay marker-free in `s` without its first character. */
  lemma NoMarkerTail(m: Marker, s: seq<char>, bol: bool, p: nat)
    requires 0 < p <= |s|
    requires forall q :: 0 <= q < p ==> MarkerLen(m, s[q..], BolAt(s, q, bol)) == 0
    ensures forall q :: 0 <= q < p - 1 ==> MarkerLen(m, s[1..][q..], BolAt(s[1..], q, s[0] == '\n')) == 0
  {
    forall q | 0 <= q < p - 1
      ensures MarkerLen(m, s[1..][q..], BolAt(s[1..], q, s[0] == '\n')) == 0
    {
      assert s[1..][q..] == s[q + 1..];
      BolShift(s, bol, q);
      assert MarkerLen(m, s[q + 1..], BolAt(s, q + 1, bol)) == 0;
    }
  }

  /** Where no marker starts, the first character joins the first piece. */
  lemma SplitNoMarker(m: Marker, s: seq<char>, bol: bool)
    requires s != [] && MarkerLen(m, s, bol) == 0
    ensures var t := Split(m, s[1..], s[0] == '\n');
      Split(m, s, bol) == [[s[0]] + t[0]] + t[1..]
  {
  }

  /**
   * What follows a day marker never begins with a digit: the split consumes
   * the whole number of "DAY n".
   */
  lemma {:induction false} DayPiecesStartAfterNumber(s: seq<char>, bol: bool)
    ensures LaterPiecesStartNonDigit(Split(DayMarker, s, bol))
    decreases |s|
  {
    if s != [] {
      var n := MarkerLen(DayMarker, s, bol);
      if n > 0 {
        var t := s[n..];
        var rt := Split(DayMarker, t, s[n - 1] == '\n');
        assert Split(DayMarker, s, bol) == [[]] + rt;
        DayPiecesStartAfterNumber(t, s[n - 1] == '\n');
        assert rt[0] == [] || rt[0][0] == t[0];
        LaterPiecesAfterEmpty(rt);
      } else {
        var rt := Split(DayMarker, s[1..], s[0] == '\n');
        SplitNoMarker(DayMarker, s, bol);
        DayPiecesStartAfterNumber(s[1..], s[0] == '\n');
        LaterPiecesNewHead([s[0]] + rt[0], rt);
      }
    }
  }

  /** Every piece after the first is empty or does not begin with a digit. */
  predicate LaterPiecesStartNonDigit(r: seq<seq<char>>) {
    forall k :: 1 <= k < |r| ==> r[k] == [] || !IsDigit(r[k][0])
  }

  lemma LaterPiecesAfterEmpty(r: seq<seq<char>>)
    requires |r| >= 1 && LaterPiecesStartNonDigit(r) && (r[0] == [] || !IsDigit(r[0][0]))
    ensures LaterPiecesStartNonDigit([[]] + r)
  {
    forall k | 1 <= k < |[[]] + r| ensures ([[]] + r)[k] == [] || !IsDigit(([[]] + r)[k][0]) {
      assert ([[]] + r)[k] == r[k - 1];
    }
  }

  lemma LaterPiecesNewHead(head: seq<char>, r: seq<seq<char>>)
    requires |r| >= 1 && LaterPiecesStartNonDigit(r)
    ensures LaterPiecesStartNonDigit([head] + r[1..])
  {
    forall k | 1 <= k < |[head] + r[1..]| ensures ([head] + r[1..])[k] == [] || !IsDigit(([head] + r[1..])[k][0]) {
      assert ([head] + r[1..])[k] == r[k];
    }
  }

  // ---------------------------------------------------------------------------
  // `(.+?)\s*\((.+?)\)`: a week title followed by a date range in parentheses

  /** `(.+?)\)` at `s`, trying group ends from `f`: the index of the closing `)`. */
  function CloseParenFrom(s: seq<char>, f: nat): (r: Option<nat>)
    requires 1 <= f <= |s| && '\n' !in s[..f]
    ensures r.Some? ==> f <= r.value < |s| && s[r.value] == ')' && '\n' !in s[..r.value]
    ensures r.Some? ==> forall k :: f <= k < r.value ==> s[k] != ')'
    ensures r.None? ==> forall k :: f <= k < |s| && s[k] == ')' ==> '\n' in s[f..k]
    decreases |s| - f
  {
    if f == |s| then None
    else if s[f] == ')' then Some(f)
    else if s[f] == '\n' then None
    else
      assert s[..f + 1] == s[..f] + [s[f]];
      var r := CloseParenFrom(s, f + 1);
      assert forall k :: f + 1 <= k < |s| ==> s[f..k] == [s[f]] + s[f + 1..k];
      r
  }

  /** `(.+?)\)` at `s`: the index of the `)` that closes a group of at least one character. */
  function CloseParen(s: seq<char>): (r: Option<nat>)
    ensures r.Some? ==> 1 <= r.value < |s| && s[r.value] == ')' && '\n' !in s[..r.value]
    ensures r.None? ==> forall k :: 1 <= k < |s| && s[k] == ')' ==> '\n' in s[..k]
  {
    if s != [] && s[0] != '\n' then
      assert s[..1] == [s[0]];
      var r := CloseParenFrom(s, 1);
      assert forall k :: 1 <= k < |s| ==> s[..k] == [s[0]] + s[1..k];
      r
    else None
  }

  /** The title pattern at `s` with group 1 ending at `e` or later. */
  function TitleFrom(s: seq<char>, e: nat): (r: Option<(seq<char>, seq<char>)>)
    requires 1 <= e <= |s| && '\n' !in s[..e]
    decreases |s| - e
  {
    if RangeAfter(s, e) then
      var q := e + SpaceRun(s[e..]);
      var f := CloseParen(s[q + 1..]).value;
      Some((s[..e], s[q + 1..q + 1 + f]))
    else if e < |s| && s[e] != '\n' then
      assert s[..e + 1] == s[..e] + [s[e]];
      TitleFrom(s, e + 1)
    else None
  }

  /** `(.+?)\s*\((.+?)\)` at `s`: `Some((title, range))` when it matches here. */
  function TitleAt(s: seq<char>): Option<(seq<char>, seq<char>)>
  {
    if s != [] && s[0] != '\n' then
      assert s[..1] == [s[0]];
      TitleFrom(s, 1)
    else None
  }

  /** A line has a parenthesised range: a `(` after its first character and a later `)` with something between. */
  predicate HasParenGroup(line: seq<char>) {
    exists i, j :: 1 <= i && i + 2 <= j < |line| && line[i] == '(' && line[j] == ')'
  }

  lemma CloseParenFinds(t: seq<char>, k: nat)
    requires 1 <= k < |t| && t[k] == ')' && '\n' !in t[..k]
    ensures CloseParen(t).Some?
  {
  }

  lemma {:induction false} TitleFromFound(s: seq<char>, e: nat, i: nat, j: nat)
    requires '\n' !in s
    requires 1 <= e <= i && i + 2 <= j < |s| && s[i] == '(' && s[j] == ')'
    ensures TitleFrom(s, e).Some?
    decreases i - e
  {
    if e == i {
      TitleFromAtParen(s, i, j);
    } else {
      assert '\n' !in s[..e] by {
        assert forall k :: 0 <= k < e ==> s[..e][k] == s[k];
      }
      LineFreeNext(s, e);
      TitleFromFound(s, e + 1, i, j);
      TitleFromStep(s, e);
    }
  }

  /** Group 1 ending right before a `(` that a later `)` closes gives a match. */
  lemma TitleFromAtParen(s: seq<char>, i: nat, j: nat)
    requires '\n' !in s
    requires 1 <= i && i + 2 <= j < |s| && s[i] == '(' && s[j] == ')'
    ensures '\n' !in s[..i] && TitleFrom(s, i).Some?
  {
    assert SpaceRun(s[i..]) == 0 by {
      assert s[i..][0] == '(';
    }
    assert CloseParen(s[i + 1..]).Some? by {
      var t := s[i + 1..];
      assert t[j - i - 1] == ')';
      assert '\n' !in t[..j - i - 1];
      CloseParenFinds(t, j - i - 1);
    }
    assert '\n' !in s[..i] by {
      assert forall k :: 0 <= k < i ==> s[..i][k] == s[k];
    }
    TitleFromHere(s, i);
  }

  /** The title pattern matches with group 1 ending at `e` when a parenthesised group follows. */
  lemma TitleFromHere(s: seq<char>, e: nat)
    requires 1 <= e <= |s| && '\n' !in s[..e]
    requires RangeAfter(s, e)
    ensures TitleFrom(s, e).Some?
  {
  }

  /** A title match with a later group end is also one from an earlier end. */
  lemma TitleFromStep(s: seq<char>, e: nat)
    requires 1 <= e < |s| && '\n' !in s[..e + 1]
    requires TitleFrom(s, e + 1).Some?
    ensures TitleFrom(s, e).Some?
  {
    assert '\n' !in s[..e];
    assert s[e] == s[..e + 1][e];
  }

  lemma {:induction false} TitleFromShape(s: seq<char>, e: nat) returns (i: nat, j: nat)
    requires 1 <= e <= |s| && '\n' !in s[..e]
    requires TitleFrom(s, e).Some?
    ensures 1 <= i && i + 2 <= j < |s| && s[i] == '(' && s[j] == ')'
    decreases |s| - e
  {
    var here := TitleFromCase(s, e);
    if here {
      i, j := RangeShape(s, e);
    } else {
      i, j := TitleFromShape(s, e + 1);
    }
  }

  /** A title match from `e` takes its range right after `e`, or is the match from `e + 1`. */
  lemma TitleFromCase(s: seq<char>, e: nat) returns (here: bool)
    requires 1 <= e <= |s| && '\n' !in s[..e]
    requires TitleFrom(s, e).Some?
    ensures here ==> RangeAfter(s, e)
    ensures !here ==> e < |s| && '\n' !in s[..e + 1] && TitleFrom(s, e + 1).Some?
  {
    here := RangeAfter(s, e);
    if !here {
      TitleFromNext(s, e);
    }
  }

  /** Optional spaces after `e`, then `(`, then a group closed by `)`. */
  predicate RangeAfter(s: seq<char>, e: nat)
    requires e <= |s|
  {
    var q := e + SpaceRun(s[e..]);
    q < |s| && s[q] == '(' && CloseParen(s[q + 1..]).Some?
  }

  /** The positions of both parentheses of the range after `e`. */
  lemma RangeShape(s: seq<char>, e: nat) returns (i: nat, j: nat)
    requires 1 <= e <= |s| && RangeAfter(s, e)
    ensures 1 <= i && i + 2 <= j < |s| && s[i] == '(' && s[j] == ')'
  {
    var q := e + SpaceRun(s[e..]);
    var f := CloseParen(s[q + 1..]).value;
    assert s[q + 1 + f] == s[q + 1..][f];
    i, j := q, q + 1 + f;
  }

  /** Where no range follows group 1 ending at `e`, the match is the one with a longer group 1. */
  lemma TitleFromNext(s: seq<char>, e: nat)
    requires 1 <= e <= |s| && '\n' !in s[..e]
    requires TitleFrom(s, e).Some?
    requires !RangeAfter(s, e)
    ensures e < |s| && '\n' !in s[..e + 1] && TitleFrom(s, e + 1) == TitleFrom(s, e)
  {
    assert e < |s| && s[e] != '\n';
    LineFreeNext(s, e);
  }

  /** A newline-free prefix grows by a character that is not a newline. */
  lemma LineFreeNext(s: seq<char>, e: nat)
    requires e < |s| && '\n' !in s[..e] && s[e] != '\n'
    ensures '\n' !in s[..e + 1]
  {
    assert s[..e + 1] == s[..e] + [s[e]];
  }

  /** A parenthesised range on a newline-free line is always found. */
  lemma TitleSearchFinds(line: seq<char>)
    requires '\n' !in line && HasParenGroup(line)
    ensures Search(line, TitleAt).Some?
  {
    var i, j :| 1 <= i && i + 2 <= j < |line| && line[i] == '(' && line[j] == ')';
    assert line[..1] == [line[0]];
    TitleFromFound(line, 1, i, j);
    assert line[0..] == line;
  }

  /** A match of the title pattern always spans a parenthesised range. */
  lemma TitleSearchHasParens(line: seq<char>)
    requires '\n' !in line && Search(line, TitleAt).Some?
    ensures HasParenGroup(line)
  {
    var p := SearchPosition(line, TitleAt);
    var t := line[p..];
    var i, j := TitleAtShape(t);
    assert line[p + i] == '(' && line[p + j] == ')' by {
      assert t[i] == line[p + i] && t[j] == line[p + j];
    }
    ParenGroupAt(line, p + i, p + j);
  }

  /** Where the title pattern matches, a `(` after the first character is closed by a later `)`. */
  lemma TitleAtShape(t: seq<char>) returns (i: nat, j: nat)
    requires TitleAt(t).Some?
    ensures 1 <= i && i + 2 <= j < |t| && t[i] == '(' && t[j] == ')'
  {
    assert t[..1] == [t[0]];
    i, j := TitleFromShape(t, 1);
  }

  lemma ParenGroupAt(line: seq<char>, i: nat, j: nat)
    requires 1 <= i && i + 2 <= j < |line| && line[i] == '(' && line[j] == ')'
    ensures HasParenGroup(line)
  {
  }

  /**
   * On a line without newlines the title pattern finds a match exactly when
   * the line has a parenthesised range; otherwise the whole line is the title.
   */
  lemma TitleSearchIff(line: seq<char>)
    requires '\n' !in line
    ensures Search(line, TitleAt).Some? <==> HasParenGroup(line)
  {
    if HasParenGroup(line) { TitleSearchFinds(line); }
    if Search(line, TitleAt).Some? { TitleSearchHasParens(line); }
  }

  /**
   * On `t (r)`, with no `(` in `t` and no `)` in `r`, group 1 grows until only
   * whitespace of `t` is left before ` (`; group 2 is then all of `r`.
   */
  lemma {:induction false} TitleFromBeforeRange(t: seq<char>, r: seq<char>, e: nat) returns (k: nat)
    requires '\n' !in t && '\n' !in r && '(' !in t && ')' !in r && |r| >= 1
    requires 1 <= e <= |t|
    ensures e <= k <= |t| && AllSpace(t[k..])
    ensures var line := t + " (" + r + ")";
      '\n' !in line[..e] && TitleFrom(line, e) == Some((t[..k], r))
    decreases |t| - e
  {
    var line := t + " (" + r + ")";
    assert line[..e] == t[..e];
    if AllSpace(t[e..]) {
      k := e;
      TitleRangeHere(t, r, e);
    } else {
      var n := SpaceRun(line[e..]);
      assert e + n < |t| by {
        if e + n >= |t| {
          assert forall i :: 0 <= i < |t| - e ==> t[e..][i] == line[e..][..n][i];
        }
      }
      assert line[e + n] == line[e..][n] == t[e + n];
      assert line[e] == t[e];
      TitleFromSkip(line, e);
      k := TitleFromBeforeRange(t, r, e + 1);
      assert TitleFrom(line, e) == Some((t[..k], r));
    }
  }

  /** Only whitespace of `t` is left before ` (`: the match ends group 1 here. */
  lemma TitleRangeHere(t: seq<char>, r: seq<char>, e: nat)
    requires '\n' !in t && '\n' !in r && ')' !in r && |r| >= 1
    requires 1 <= e <= |t| && AllSpace(t[e..])
    ensures var line := t + " (" + r + ")";
      '\n' !in line[..e] && TitleFrom(line, e) == Some((t[..e], r))
  {
    var line := t + " (" + r + ")";
    var q := |t| + 1;
    assert line[..e] == t[..e];
    SpacesBeforeParen(t, r, e);
    assert line[q] == '(' && line[q + 1..] == r + [')'];
    ClosingParen(r);
    assert line[q + 1..q + 1 + |r|] == r;
    TitleFromRange(line, e);
  }

  /** `\s*` after `e` runs up to the `(`. */
  lemma SpacesBeforeParen(t: seq<char>, r: seq<char>, e: nat)
    requires e <= |t| && AllSpace(t[e..])
    ensures var line := t + " (" + r + ")"; e + SpaceRun(line[e..]) == |t| + 1
  {
    var line := t + " (" + r + ")";
    var w, tail := t[e..] + [' '], ['('] + r + [')'];
    assert line[e..] == w + tail;
    AllSpaceAppend(t[e..], [' ']);
    SpaceRunOfSpaces(w, tail);
  }

  /** `(.+?)\)` on `r)`, with no `)` or newline in `r`, closes at the last character. */
  lemma ClosingParen(r: seq<char>)
    requires '\n' !in r && ')' !in r && |r| >= 1
    ensures CloseParen(r + [')']) == Some(|r|)
  {
    assert (r + [')'])[..|r|] == r;
    CloseParenFinds(r + [')'], |r|);
  }

  /** Where a range follows, group 1 ends at `e` and group 2 is the text inside the parentheses. */
  lemma TitleFromRange(s: seq<char>, e: nat)
    requires 1 <= e <= |s| && '\n' !in s[..e] && RangeAfter(s, e)
    ensures var q := e + SpaceRun(s[e..]);
      TitleFrom(s, e) == Some((s[..e], s[q + 1..q + 1 + CloseParen(s[q + 1..]).value]))
  {
  }

  /** Where no range follows `e`, the match is the one with group 1 ending later. */
  lemma TitleFromSkip(s: seq<char>, e: nat)
    requires 1 <= e < |s| && '\n' !in s[..e] && s[e] != '\n'
    requires e + SpaceRun(s[e..]) < |s| && s[e + SpaceRun(s[e..])] != '('
    ensures '\n' !in s[..e + 1] && TitleFrom(s, e) == TitleFrom(s, e + 1)
  {
    LineFreeNext(s, e);
  }

  // ---------------------------------------------------------------------------
  // `– (.+?)(?:\*\*|$)`: the text of a day header after the dash

  /** The lazy group after the dash, tried with ends from `f`: it stops before `**` or at the end. */
  function DashGroupFrom(s: seq<char>, f: nat): (r: Option<nat>)
    requires 1 <= f <= |s| && '\n' !in s[..f]
    ensures r.Some? ==> f <= r.value <= |s| && '\n' !in s[..r.value]
    ensures r.Some? ==> r.value == |s| || "**" <= s[r.value..] || (r.value == |s| - 1 && s[r.value] == '\n')
    ensures r.Some? ==> forall k :: f <= k < r.value ==> !("**" <= s[k..])
    ensures '\n' !in s ==> r == Some(FirstStars(s, f))
    decreases |s| - f
  {
    if f == |s| then Some(f)
    else if "**" <= s[f..] then Some(f)
    else if s[f] == '\n' then (if f == |s| - 1 then Some(f) else None)
    else
      assert s[..f + 1] == s[..f] + [s[f]];
      DashGroupFrom(s, f + 1)
  }

  /** The first index from `f` at which `**` starts, or the length of `s`. */
  function FirstStars(s: seq<char>, f: nat): (k: nat)
    requires f <= |s|
    ensures f <= k <= |s| && (k == |s| || "**" <= s[k..])
    ensures forall i :: f <= i < k ==> !("**" <= s[i..])
    decreases |s| - f
  {
    if f == |s| || "**" <= s[f..] then f else FirstStars(s, f + 1)
  }

  /** `– (.+?)(?:\*\*|$)` at `s`: the group text when the pattern matches here. */
  function DashAt(s: seq<char>): (r: Option<seq<char>>)
    ensures r.Some? ==> DashText <= s && |r.value| >= 1 && r.value <= s[|DashText|..]
    ensures '\n' !in s && r.Some? ==> r.value == s[|DashText|..][..FirstStars(s[|DashText|..], 1)]
  {
    if DashText <= s && |s| > |DashText| && s[|DashText|] != '\n' then
      var t := s[|DashText|..];
      assert t[..1] == [t[0]];
      match DashGroupFrom(t, 1)
      case Some(f) => Some(t[..f])
      case None => None
    else None
  }

  /** `FirstStars` from `f` is the position `k` when `**` starts at `k` (or the text ends) and nowhere in between. */
  lemma {:induction false} FirstStarsAt(s: seq<char>, f: nat, k: nat)
    requires f <= k <= |s| && (k == |s| || "**" <= s[k..])
    requires forall i :: f <= i < k ==> !("**" <= s[i..])
    ensures FirstStars(s, f) == k
    decreases k - f
  {
    if f < k {
      FirstStarsAt(s, f + 1, k);
    }
  }

  /**
   * `– info` followed by `**` or by the end of the line gives the group
   * `info`, when no `**` starts inside `info` after its first character.
   */
  lemma DashAtInfo(info: seq<char>, tail: seq<char>)
    requires |info| >= 1 && '\n' !in info + tail
    requires forall k :: 1 <= k < |info| ==> !("**" <= (info + tail)[k..])
    requires tail == [] || "**" <= tail
    ensures DashAt(DashText + info + tail) == Some(info)
  {
    var s := DashText + info + tail;
    var t := info + tail;
    assert s[|DashText|..] == t;
    assert |info| == |t| || "**" <= t[|info|..] by {
      assert t[|info|..] == tail;
    }
    FirstStarsAt(t, 1, |info|);
    assert t[..1] == [t[0]];
    assert DashGroupFrom(t, 1) == Some(|info|);
    assert t[..|info|] == info;
  }

  /** On a header line whose first `– ` opens `info` followed by `**` or the end, the search gives `info`. */
  lemma DashSearchInfo(pre: seq<char>, info: seq<char>, tail: seq<char>)
    requires '\n' !in pre + (DashText + info + tail)
    requires forall p :: 0 <= p < |pre| ==> !(DashText <= (pre + (DashText + info + tail))[p..])
    requires |info| >= 1 && forall k :: 1 <= k < |info| ==> !("**" <= (info + tail)[k..])
    requires tail == [] || "**" <= tail
    ensures Search(pre + (DashText + info + tail), DashAt) == Some(info)
  {
    var line := pre + (DashText + info + tail);
    assert '\n' !in info + tail by {
      forall i | 0 <= i < |info + tail| ensures (info + tail)[i] != '\n' {
        assert (info + tail)[i] == line[|pre| + |DashText| + i];
      }
    }
    assert line[|pre|..] == DashText + info + tail;
    DashAtInfo(info, tail);
    assert forall q :: 0 <= q < |pre| ==> DashAt(line[q..]).None?;
    SearchFirst(line, DashAt, |pre|);
  }

  /**
   * On a line without newlines the day-header pattern matches exactly when
   * `– ` occurs followed by at least one more character.
   */
  lemma DashSearchIff(line: seq<char>)
    requires '\n' !in line
    ensures Search(line, DashAt).Some? <==>
              exists p :: 0 <= p && p + |DashText| < |line| && DashText <= line[p..]
  {
    if exists p :: 0 <= p && p + |DashText| < |line| && DashText <= line[p..] {
      var p :| 0 <= p && p + |DashText| < |line| && DashText <= line[p..];
      var t := line[p..][|DashText|..];
      assert '\n' !in t by {
        forall k | 0 <= k < |t| ensures t[k] != '\n' { assert t[k] == line[p + |DashText| + k]; }
      }
      assert t[..1] == [t[0]];
      assert DashGroupFrom(t, 1).Some?;
      assert DashAt(line[p..]).Some?;
      SearchFinds(line, DashAt, p);
    }
    if Search(line, DashAt).Some? {
      var p := SearchPosition(line, DashAt);
      assert p + |DashText| < |line|;
    }
  }

  // ---------------------------------------------------------------------------
  // `DAY (\d+)`: a day number in the header line

  /** `DAY (\d+)` at `s`: the digits when it matches here. */
  function DayNumberAt(s: seq<char>): (r: Option<seq<char>>)
    ensures r.Some? ==> |r.value| >= 1 && AllDigits(r.value) && DayWordText + r.value <= s
  {
    if DayWordText <= s then
      var d := DigitRun(s[|DayWordText|..]);
      if d > 0 then
        var num := s[|DayWordText|..][..d];
        assert s[..|DayWordText| + d] == DayWordText + num;
        Some(num)
      else None
    else None
  }

  /** `DAY ` and a whole digit run match with the digits as the group. */
  lemma DayNumberAtDigits(d: seq<char>, rest: seq<char>)
    requires |d| >= 1 && AllDigits(d) && (rest == [] || !IsDigit(rest[0]))
    ensures DayNumberAt(DayWordText + d + rest) == Some(d)
  {
    var at := DayWordText + d + rest;
    assert at[|DayWordText|..] == d + rest;
    DigitRunOfDigits(d, rest);
    assert (d + rest)[..|d|] == d;
  }

  // ---------------------------------------------------------------------------
  // `🎯 \*\*DSA: (.+?)\*\*\n(.*?)(?=🧠|\Z)` and
  // `🧠 \*\*SYSTEM DESIGN: (.+?)\*\*\n(.*?)(?=---|\Z)`, both DOTALL

  /** The first index from `e` at which `**\n` starts (DOTALL: newlines are crossed). */
  function HeaderCloseFrom(s: seq<char>, e: nat): (r: Option<nat>)
    requires e <= |s|
    ensures r.Some? ==> e <= r.value <= |s| && HeaderClose <= s[r.value..]
    ensures r.Some? ==> forall k :: e <= k < r.value ==> !(HeaderClose <= s[k..])
    ensures r.None? ==> forall k :: e <= k <= |s| ==> !(HeaderClose <= s[k..])
    decreases |s| - e
  {
    if HeaderClose <= s[e..] then Some(e)
    else if e == |s| then None
    else HeaderCloseFrom(s, e + 1)
  }

  /** `(.*?)(?=stop|\Z)`: the first index at which `stop` starts, or the end. */
  function BodyEnd(s: seq<char>, stop: seq<char>, f: nat): (k: nat)
    requires f <= |s|
    ensures f <= k <= |s| && (k == |s| || stop <= s[k..])
    ensures forall i :: f <= i < k ==> !(stop <= s[i..])
    decreases |s| - f
  {
    if f == |s| || stop <= s[f..] then f else BodyEnd(s, stop, f + 1)
  }

  datatype Section = Section(title: seq<char>, body: seq<char>)

  /**
   * A labelled block at `s`: `header`, a title of at least one character up
   * to the first `**` + newline, then a body up to the first `stop` or the
   * end of the text.
   */
  function SectionAt(s: seq<char>, header: seq<char>, stop: seq<char>): Option<Section>
  {
    if header <= s && |s| > |header| then
      match HeaderCloseFrom(s, |header| + 1)
      case Some(e) =>
        var b := e + |HeaderClose|;
        var f := BodyEnd(s, stop, b);
        Some(Section(s[|header|..e], s[b..f]))
      case None => None
    else None
  }

  /**
   * What a block match consists of: the title runs from the header to the
   * first `**` + newline after at least one character, the body from there
   * to the first `stop` or the end; there is no match exactly when the
   * header or that closing text is missing.
   */
  lemma SectionAtShape(s: seq<char>, header: seq<char>, stop: seq<char>)
    ensures match SectionAt(s, header, stop)
      case None => !(header <= s && |s| > |header| && HeaderCloseFrom(s, |header| + 1).Some?)
      case Some(sec) =>
        var e := |header| + |sec.title|;
        var b := e + |HeaderClose|;
        && header <= s && |sec.title| >= 1 && b + |sec.body| <= |s|
        && s[|header|..e] == sec.title
        && HeaderClose <= s[e..]
        && (forall k :: |header| + 1 <= k < e ==> !(HeaderClose <= s[k..]))
        && s[b..b + |sec.body|] == sec.body
        && (b + |sec.body| == |s| || stop <= s[b + |sec.body|..])
        && (forall k :: b <= k < b + |sec.body| ==> !(stop <= s[k..]))
  {
  }

  function DsaAt(s: seq<char>): Option<Section> { SectionAt(s, DsaHeader, BrainStop) }
  function SystemDesignAt(s: seq<char>): Option<Section> { SectionAt(s, SystemDesignHeader, RuleStop) }

  /** A preamble without the first character of the DSA header is skipped by the search for the block. */
  lemma DsaPastPreamble(pre: seq<char>, block: seq<char>)
    requires DsaHeader[0] !in pre && DsaAt(block).Some?
    ensures Search(pre + block, DsaAt) == DsaAt(block)
  {
    var text := pre + block;
    assert text[|pre|..] == block;
    forall q | 0 <= q < |pre| ensures DsaAt(text[q..]).None? {
      assert text[q..][0] == pre[q];
    }
    FirstMatchAt(text, DsaAt, 0, |pre|);
  }

  /** A preamble without the first character of the SYSTEM DESIGN header is skipped by the search for the block. */
  lemma SystemDesignPastPreamble(pre: seq<char>, block: seq<char>)
    requires SystemDesignHeader[0] !in pre && SystemDesignAt(block).Some?
    ensures Search(pre + block, SystemDesignAt) == SystemDesignAt(block)
  {
    var text := pre + block;
    assert text[|pre|..] == block;
    forall q | 0 <= q < |pre| ensures SystemDesignAt(text[q..]).None? {
      assert text[q..][0] == pre[q];
    }
    FirstMatchAt(text, SystemDesignAt, 0, |pre|);
  }

  // ---------------------------------------------------------------------------
  // `📌 Goal: (.+)`

  /** `📌 Goal: (.+)` at `s`: the rest of the line (at least one character). */
  function GoalAt(s: seq<char>): (r: Option<seq<char>>)
    ensures r.Some? ==> |r.value| >= 1 && '\n' !in r.value && GoalText + r.value <= s
    ensures r.Some? ==> |GoalText| + |r.value| == |s| || s[|GoalText| + |r.value|] == '\n'
  {
    if GoalText <= s && |s| > |GoalText| && s[|GoalText|] != '\n' then
      var g := FirstLine(s[|GoalText|..]);
      assert s[..|GoalText| + |g|] == GoalText + g;
      Some(g)
    else None
  }

  // ---------------------------------------------------------------------------
  // re.findall of `\* LC (\d+): (.+)` and of `\* (.+)`

  datatype Item = Item(groups: (seq<char>, seq<char>), len: nat)

  /** `\* LC (\d+): (.+)` at `s`: the number, the rest of the line, and the match length. */
  function LcAt(s: seq<char>): (r: Option<Item>)
    ensures r.Some? ==> var Item((num, title), n) := r.value;
              && |num| >= 1 && AllDigits(num) && |title| >= 1 && '\n' !in title
              && n == |LcText| + |num| + |ColonSpace| + |title| <= |s|
  {
    if LcText <= s then
      var d := DigitRun(s[|LcText|..]);
      var k := |LcText| + d;
      if d > 0 && ColonSpace <= s[k..] && k + |ColonSpace| < |s| && s[k + |ColonSpace|] != '\n' then
        var title := FirstLine(s[k + |ColonSpace|..]);
        var num := s[|LcText|..k];
        assert num == s[|LcText|..][..d];
        assert s[..k + |ColonSpace| + |title|] == LcText + num + ColonSpace + title;
        Some(Item((num, title), k + |ColonSpace| + |title|))
      else None
    else None
  }

  /** `\* (.+)` at `s`: the rest of the line (at least one character) and the match length. */
  function BulletAt(s: seq<char>): (r: Option<Item>)
    ensures r.Some? ==> var Item((text, _), n) := r.value;
              && |text| >= 1 && '\n' !in text && n == |BulletText| + |text| <= |s|
  {
    if BulletText <= s && |s| > |BulletText| && s[|BulletText|] != '\n' then
      var text := FirstLine(s[|BulletText|..]);
      assert s[..|BulletText| + |text|] == BulletText + text;
      Some(Item((text, []), |BulletText| + |text|))
    else None
  }

  /** The LC items of a block, with their digit strings and titles. */
  function FindAllLc(s: seq<char>): (r: seq<(seq<char>, seq<char>)>)
    ensures forall k :: 0 <= k < |r| ==> |r[k].0| >= 1 && AllDigits(r[k].0) && |r[k].1| >= 1 && '\n' !in r[k].1
    decreases |s|
  {
    if s == [] then []
    else match LcAt(s)
      case Some(m) => [m.groups] + FindAllLc(s[m.len..])
      case None => FindAllLc(s[1..])
  }

  /** The bullet items of a block: the text after each `* `. */
  function FindAllBullets(s: seq<char>): (r: seq<seq<char>>)
    ensures forall k :: 0 <= k < |r| ==> |r[k]| >= 1 && '\n' !in r[k]
    decreases |s|
  {
    if s == [] then []
    else match BulletAt(s)
      case Some(m) => [m.groups.0] + FindAllBullets(s[m.len..])
      case None => FindAllBullets(s[1..])
  }

  // ---------------------------------------------------------------------------
  // The item patterns never look past the end of the line they start on

  /** A digit run that ends inside `y` is not lengthened by what follows `y`. */
  lemma DigitRunWithin(y: seq<char>, r: seq<char>)
    requires DigitRun(y) < |y|
    ensures DigitRun(y + r) == DigitRun(y)
  {
    var d := DigitRun(y);
    assert y[..d] + (y[d..] + r) == y + r;
    DigitRunOfDigits(y[..d], y[d..] + r);
  }

  lemma {:induction false} DigitRunStops(x: seq<char>, r: seq<char>)
    requires r == [] || !IsDigit(r[0])
    ensures DigitRun(x + r) == DigitRun(x)
  {
    if x != [] {
      assert (x + r)[1..] == x[1..] + r;
      DigitRunStops(x[1..], r);
    }
  }

  lemma {:induction false} FirstLineStops(x: seq<char>, r: seq<char>)
    requires '\n' !in x
    requires r == [] || r[0] == '\n'
    ensures FirstLine(x + r) == x
  {
    if x != [] {
      assert (x + r)[1..] == x[1..] + r;
      FirstLineStops(x[1..], r);
    } else if r == [] {
      assert x + r == [];
    }
  }

  lemma PrefixStops(p: seq<char>, x: seq<char>, r: seq<char>)
    requires '\n' !in p
    requires r == [] || r[0] == '\n'
    ensures p <= x + r <==> p <= x
  {
    if |x| >= |p| {
      assert (x + r)[..|p|] == x[..|p|];
    } else if r != [] && |p| <= |x + r| {
      assert (x + r)[|x|] == '\n';
      assert p[|x|] != '\n';
    }
  }

  /** An LC match at a line is the same whatever follows the line. */
  lemma LcAtStops(l: seq<char>, r: seq<char>)
    requires '\n' !in l
    requires r == [] || r[0] == '\n'
    ensures LcAt(l + r) == LcAt(l)
  {
    var s := l + r;
    PrefixStops(LcText, l, r);
    if LcText <= l {
      var d := DigitRun(l[|LcText|..]);
      var k := |LcText| + d;
      LcNumberStops(l, r);
      LcColonStops(l, r, k);
      if d > 0 && ColonSpace <= l[k..] {
        var c := k + |ColonSpace|;
        LcTitleStops(l, r, c);
        SliceOfAppend(l, r, |LcText|, k);
        LcFromSame(s, l, d);
      }
    }
  }

  /** Two texts that agree on every piece the LC pattern looks at give the same match. */
  lemma LcFromSame(s: seq<char>, l: seq<char>, d: nat)
    requires LcText <= s && LcText <= l && d > 0
    requires DigitRun(s[|LcText|..]) == d && DigitRun(l[|LcText|..]) == d
    requires var k := |LcText| + d; k <= |l| && k <= |s| && ColonSpace <= s[k..] && ColonSpace <= l[k..]
    requires var c := |LcText| + d + |ColonSpace|;
      && (c < |s| && s[c] != '\n' <==> c < |l| && l[c] != '\n')
      && FirstLine(s[c..]) == FirstLine(l[c..])
    requires s[|LcText|..|LcText| + d] == l[|LcText|..|LcText| + d]
    ensures LcAt(s) == LcAt(l)
  {
  }

  lemma LcNumberStops(l: seq<char>, r: seq<char>)
    requires LcText <= l
    requires r == [] || r[0] == '\n'
    ensures DigitRun((l + r)[|LcText|..]) == DigitRun(l[|LcText|..])
  {
    assert (l + r)[|LcText|..] == l[|LcText|..] + r;
    DigitRunStops(l[|LcText|..], r);
  }

  lemma LcColonStops(l: seq<char>, r: seq<char>, k: nat)
    requires k <= |l|
    requires r == [] || r[0] == '\n'
    ensures (ColonSpace <= (l + r)[k..]) == (ColonSpace <= l[k..])
  {
    assert (l + r)[k..] == l[k..] + r;
    PrefixStops(ColonSpace, l[k..], r);
  }

  lemma LcTitleStops(l: seq<char>, r: seq<char>, c: nat)
    requires '\n' !in l && c <= |l|
    requires r == [] || r[0] == '\n'
    ensures (c < |l + r| && (l + r)[c] != '\n') <==> (c < |l| && l[c] != '\n')
    ensures FirstLine((l + r)[c..]) == FirstLine(l[c..])
  {
    var s := l + r;
    if c < |l| {
      assert s[c] == l[c];
    } else if c < |s| {
      assert s[c] == r[0];
    }
    assert s[c..] == l[c..] + r;
    FirstLineStops(l[c..], r);
    FirstLineStops(l[c..], []);
    assert l[c..] + [] == l[c..];
  }

  /** A bullet match at a line is the same whatever follows the line. */
  lemma BulletAtStops(l: seq<char>, r: seq<char>)
    requires '\n' !in l
    requires r == [] || r[0] == '\n'
    ensures BulletAt(l + r) == BulletAt(l)
  {
    var s := l + r;
    PrefixStops(BulletText, l, r);
    if BulletText <= l {
      var c := |BulletText|;
      assert s[c..] == l[c..] + r;
      FirstLineStops(l[c..], r);
      FirstLineStops(l[c..], []);
      assert l[c..] + [] == l[c..];
    }
  }

  lemma FindAllLcNewline(r: seq<char>)
    ensures FindAllLc("\n" + r) == FindAllLc(r)
  {
    var s := "\n" + r;
    assert s[1..] == r;
    assert s[0] == '\n' && LcText[0] == '*';
    assert LcAt(s).None?;
  }

  lemma FindAllLcLinesStep(l: seq<char>, r: seq<char>) returns (pre: seq<(seq<char>, seq<char>)>, n: nat)
    requires '\n' !in l && l != []
    ensures 0 < n <= |l|
    ensures FindAllLc(l + "\n" + r) == pre + FindAllLc(l[n..] + "\n" + r)
    ensures FindAllLc(l) == pre + FindAllLc(l[n..])
  {
    var t := "\n" + r;
    assert l + "\n" + r == l + t by {
      AppendAssoc(l, "\n", r);
    }
    LcAtStops(l, t);
    match LcAt(l)
    case Some(m) =>
      n := m.len;
      assert FindAllLc(l + t) == [m.groups] + FindAllLc((l + t)[n..]);
      assert (l + t)[n..] == l[n..] + "\n" + r by {
        DropOfAppend(l, t, n);
        AppendAssoc(l[n..], "\n", r);
      }
      pre := [m.groups];
    case None =>
      n := 1;
      assert FindAllLc(l + t) == FindAllLc((l + t)[1..]);
      assert (l + t)[1..] == l[1..] + "\n" + r by {
        DropOfAppend(l, t, 1);
        AppendAssoc(l[1..], "\n", r);
      }
      pre := [];
  }

  /** `findall` over two lines is the findall of each, in order. */
  lemma {:induction false} FindAllLcLines(l: seq<char>, r: seq<char>)
    requires '\n' !in l
    ensures FindAllLc(l + "\n" + r) == FindAllLc(l) + FindAllLc(r)
    decreases |l|
  {
    if l == [] {
      assert l + "\n" + r == "\n" + r;
      FindAllLcNewline(r);
    } else {
      var pre, n := FindAllLcLinesStep(l, r);
      FindAllLcLines(l[n..], r);
      AppendAssoc(pre, FindAllLc(l[n..]), FindAllLc(r));
    }
  }

  lemma FindAllBulletsNewline(r: seq<char>)
    ensures FindAllBullets("\n" + r) == FindAllBullets(r)
  {
    var s := "\n" + r;
    assert s[1..] == r;
    assert s[0] == '\n' && BulletText[0] == '*';
    assert BulletAt(s).None?;
  }

  lemma FindAllBulletsLinesStep(l: seq<char>, r: seq<char>) returns (pre: seq<seq<char>>, n: nat)
    requires '\n' !in l && l != []
    ensures 0 < n <= |l|
    ensures FindAllBullets(l + "\n" + r) == pre + FindAllBullets(l[n..] + "\n" + r)
    ensures FindAllBullets(l) == pre + FindAllBullets(l[n..])
  {
    var t := "\n" + r;
    assert l + "\n" + r == l + t by {
      AppendAssoc(l, "\n", r);
    }
    BulletAtStops(l, t);
    match BulletAt(l)
    case Some(m) =>
      n := m.len;
      assert FindAllBullets(l + t) == [m.groups.0] + FindAllBullets((l + t)[n..]);
      assert (l + t)[n..] == l[n..] + "\n" + r by {
        DropOfAppend(l, t, n);
        AppendAssoc(l[n..], "\n", r);
      }
      pre := [m.groups.0];
    case None =>
      n := 1;
      assert FindAllBullets(l + t) == FindAllBullets((l + t)[1..]);
      assert (l + t)[1..] == l[1..] + "\n" + r by {
        DropOfAppend(l, t, 1);
        AppendAssoc(l[1..], "\n", r);
      }
      pre := [];
  }

  /** `findall` over two lines is the findall of each, in order. */
  lemma {:induction false} FindAllBulletsLines(l: seq<char>, r: seq<char>)
    requires '\n' !in l
    ensures FindAllBullets(l + "\n" + r) == FindAllBullets(l) + FindAllBullets(r)
    decreases |l|
  {
    if l == [] {
      assert l + "\n" + r == "\n" + r;
      FindAllBulletsNewline(r);
    } else {
      var pre, n := FindAllBulletsLinesStep(l, r);
      FindAllBulletsLines(l[n..], r);
      AppendAssoc(pre, FindAllBullets(l[n..]), FindAllBullets(r));
    }
  }

  lemma LcAtLine(num: seq<char>, title: seq<char>)
    requires |num| >= 1 && AllDigits(num)
    requires |title| >= 1 && '\n' !in title
    ensures var s := LcText + num + ColonSpace + title;
      LcAt(s) == Some(Item((num, title), |s|))
  {
    LcLinePieces(num, title);
    LcAtFound(LcText + num + ColonSpace + title, num, title);
  }

  /** The pieces of `* LC <num>: <title>` sit where the LC pattern looks for them. */
  lemma LcLinePieces(num: seq<char>, title: seq<char>)
    requires |num| >= 1 && AllDigits(num)
    ensures var s := LcText + num + ColonSpace + title; var k := |LcText| + |num|;
      && LcText <= s && DigitRun(s[|LcText|..]) == |num|
      && k <= |s| && s[|LcText|..k] == num
      && ColonSpace <= s[k..] && s[k + |ColonSpace|..] == title
  {
    var tail := ColonSpace + title;
    var s := LcText + num + ColonSpace + title;
    var k := |LcText| + |num|;
    assert s == LcText + (num + tail) by {
      AppendAssoc(LcText, num, tail);
      AppendAssoc(LcText + num, ColonSpace, title);
    }
    assert LcText <= s && s[|LcText|..] == num + tail by {
      assert s[..|LcText|] == LcText;
    }
    assert DigitRun(s[|LcText|..]) == |num| by {
      DigitRunOfDigits(num, tail);
    }
    assert s[|LcText|..k] == num && s[k..] == tail by {
      assert s[|LcText|..k] == (num + tail)[..|num|];
    }
    assert ColonSpace <= s[k..] && s[k + |ColonSpace|..] == title by {
      assert tail[..|ColonSpace|] == ColonSpace;
      assert tail[|ColonSpace|..] == title;
    }
  }

  /** The LC pattern matches once its pieces are found: digits, `: `, then a non-empty rest of the line. */
  lemma LcAtFound(s: seq<char>, num: seq<char>, title: seq<char>)
    requires LcText <= s && |num| >= 1 && DigitRun(s[|LcText|..]) == |num|
    requires |LcText| + |num| <= |s| && s[|LcText|..|LcText| + |num|] == num
    requires ColonSpace <= s[|LcText| + |num|..]
    requires |title| >= 1 && '\n' !in title
    requires s[|LcText| + |num| + |ColonSpace|..] == title
    ensures LcAt(s) == Some(Item((num, title), |LcText| + |num| + |ColonSpace| + |title|))
  {
    var k := |LcText| + |num|;
    var c := k + |ColonSpace|;
    assert c < |s| && s[c] == title[0];
    LcAtUnfold(s, |num|);
    assert FirstLine(s[c..]) == title by {
      FirstLineStops(title, []);
      assert title + [] == title;
    }
  }

  lemma LcAtUnfold(s: seq<char>, d: nat)
    requires LcText <= s && d == DigitRun(s[|LcText|..]) && d > 0
    requires ColonSpace <= s[|LcText| + d..]
    requires |LcText| + d + |ColonSpace| < |s| && s[|LcText| + d + |ColonSpace|] != '\n'
    ensures var k := |LcText| + d;
      var title := FirstLine(s[k + |ColonSpace|..]);
      LcAt(s) == Some(Item((s[|LcText|..k], title), k + |ColonSpace| + |title|))
  {
  }

  /** A line `* LC <digits>: <title>` yields exactly the pair (digits, title). */
  lemma LcLine(num: seq<char>, title: seq<char>)
    requires |num| >= 1 && AllDigits(num)
    requires |title| >= 1 && '\n' !in title
    ensures FindAllLc(LcText + num + ColonSpace + title) == [(num, title)]
  {
    var s := LcText + num + ColonSpace + title;
    LcAtLine(num, title);
    assert s[|s|..] == [];
  }

  /** A line `* <text>` yields exactly its text. */
  lemma BulletLine(text: seq<char>)
    requires |text| >= 1 && '\n' !in text
    ensures FindAllBullets(BulletText + text) == [text]
  {
    var s := BulletText + text;
    assert BulletText <= s && s[|BulletText|..] == text;
    assert s[|BulletText|] == text[0];
    assert FirstLine(text) == text by {
      FirstLineStops(text, []);
      assert text + [] == text;
    }
    BulletAtUnfold(s);
    assert s[|s|..] == [];
    assert FindAllBullets(s) == [text] + FindAllBullets(s[|s|..]);
  }

  lemma BulletAtUnfold(s: seq<char>)
    requires BulletText <= s && |s| > |BulletText| && s[|BulletText|] != '\n'
    ensures var text := FirstLine(s[|BulletText|..]);
      BulletAt(s) == Some(Item((text, []), |BulletText| + |text|))
  {
  }

  /** A line without `*` yields no item of either kind. */
  lemma {:induction false} NoStarNoItems(l: seq<char>)
    requires '*' !in l
    ensures FindAllLc(l) == [] && FindAllBullets(l) == []
    decreases |l|
  {
    if l != [] {
      assert l[0] != '*';
      assert !(LcText <= l) && !(BulletText <= l);
      NoStarNoItems(l[1..]);
    }
  }

  /** A common head does not change whether one sequence is a prefix of another. */
  lemma PrefixAfterCommon<T>(a: seq<T>, b: seq<T>, t: seq<T>)
    ensures a + b <= a + t <==> b <= t
  {
    if b <= t {
      assert a + b == (a + t)[..|a + b|];
    }
    if a + b <= a + t {
      assert t[..|b|] == (a + t)[|a|..|a| + |b|] == (a + b)[|a|..];
      assert (a + b)[|a|..] == b;
    }
  }

  /** A `* text` line whose text does not open with `LC ` yields no LC item. */
  lemma BulletWithoutLc(text: seq<char>)
    requires '*' !in text && !("LC " <= text)
    ensures FindAllLc(BulletText + text) == []
  {
    var s := BulletText + text;
    assert LcText == BulletText + "LC ";
    PrefixAfterCommon(BulletText, "LC ", text);
    assert s[1..] == [' '] + text;
    assert '*' !in s[1..];
    NoStarNoItems(s[1..]);
  }
}
