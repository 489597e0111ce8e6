/**
 * The markdown plan parser: the week, day and block structure of the plan,
 * the item lines inside the blocks, the problem slug and the difficulty
 * lookup, stated as functions, and the `MarkdownParser` object whose
 * methods build the same records with loops.
 */
module Parser {
  import opened Options
  import opened PyStr
  import opened Patterns
  import opened Records

  // ---------------------------------------------------------------------------
  // Difficulty: a fixed two-list lookup

  const EasyNumbers: set<nat> := {1, 13, 20, 21, 26, 27, 35, 53, 58, 66, 70, 88, 104, 121, 125,
                                  136, 141, 155, 169, 206, 217, 242, 268, 283, 344, 349, 485, 509, 704, 724}
  const HardNumbers: set<nat> := {10, 23, 25, 30, 37, 42, 51, 72, 76, 84, 124, 140, 212, 239, 295, 297}

  /** No problem number is listed as both easy and hard, so the order of the two tests is immaterial. */
  lemma DifficultyListsDisjoint()
    ensures EasyNumbers !! HardNumbers
  {
  }

  /** The difficulty label of a problem number: one of three labels, decided by list membership. */
  function GuessDifficulty(n: nat): (d: seq<char>)
    ensures d == "easy" || d == "medium" || d == "hard"
    ensures d == "easy" <==> n in EasyNumbers
    ensures d == "hard" <==> n in HardNumbers
    ensures d == "medium" <==> n !in EasyNumbers && n !in HardNumbers
  {
    DifficultyListsDisjoint();
    if n in EasyNumbers then "easy" else if n in HardNumbers then "hard" else "medium"
  }

  // ---------------------------------------------------------------------------
  // The problem slug: lower-case, drop `[^\w\s-]`, turn `[-\s]+` into `-`, strip `-`

  predicate IsSeparator(c: char) { c == '-' || IsSpace(c) }

  /** `re.sub(r'[^\w\s-]', '', s)`: keeps word characters, whitespace and hyphens, in order. */
  function RemoveDisallowed(s: seq<char>): seq<char>
    decreases |s|
  {
    if s == [] then []
    else if IsWordChar(s[0]) || IsSeparator(s[0]) then [s[0]] + RemoveDisallowed(s[1..])
    else RemoveDisallowed(s[1..])
  }

  /** The text after a run of separators at the start of `s`. */
  function DropSeparators(s: seq<char>): (r: seq<char>)
    ensures |r| <= |s| && r == s[|s| - |r|..]
    ensures r == [] || !IsSeparator(r[0])
    ensures forall i :: 0 <= i < |s| - |r| ==> IsSeparator(s[i])
    decreases |s|
  {
    if s != [] && IsSeparator(s[0]) then DropSeparators(s[1..]) else s
  }

  /** `re.sub(r'[-\s]+', '-', s)`: every maximal run of hyphens and whitespace becomes one hyphen. */
  function CollapseSeparators(s: seq<char>): seq<char>
    decreases |s|
  {
    if s == [] then []
    else if IsSeparator(s[0]) then ['-'] + CollapseSeparators(DropSeparators(s[1..]))
    else [s[0]] + CollapseSeparators(s[1..])
  }

  predicate IsSlugChar(c: char) { IsLower(c) || IsDigit(c) || c == '_' || c == '-' }
  predicate AllSlugChars(s: seq<char>) { forall i :: 0 <= i < |s| ==> IsSlugChar(s[i]) }
  predicate SlugOrSpace(s: seq<char>) { forall i :: 0 <= i < |s| ==> IsSlugChar(s[i]) || IsSpace(s[i]) }
  predicate NoDoubleHyphen(s: seq<char>) { forall i :: 0 <= i < |s| - 1 ==> !(s[i] == '-' && s[i + 1] == '-') }

  /** A slug: lower-case word characters and single hyphens, with no hyphen at either end. */
  predicate IsSlug(s: seq<char>) {
    AllSlugChars(s) && NoDoubleHyphen(s) && (s == [] || (s[0] != '-' && s[|s| - 1] != '-'))
  }

  /** After lower-casing, the filter leaves only slug characters and whitespace. */
  lemma {:induction false} RemoveDisallowedShape(s: seq<char>)
    requires forall i :: 0 <= i < |s| ==> !IsUpper(s[i])
    ensures SlugOrSpace(RemoveDisallowed(s))
    decreases |s|
  {
    if s != [] {
      RemoveDisallowedShape(s[1..]);
    }
  }

  /** Collapsing leaves no whitespace and no two hyphens in a row. */
  lemma {:induction false} CollapseShape(s: seq<char>)
    requires SlugOrSpace(s)
    ensures var r := CollapseSeparators(s);
      && AllSlugChars(r) && NoDoubleHyphen(r)
      && (s != [] ==> r != [] && r[0] == (if IsSeparator(s[0]) then '-' else s[0]))
    decreases |s|
  {
    if s != [] {
      var t := if IsSeparator(s[0]) then DropSeparators(s[1..]) else s[1..];
      assert SlugOrSpace(t) by {
        assert |t| < |s| && t == s[|s| - |t|..];
        forall i | 0 <= i < |t| ensures IsSlugChar(t[i]) || IsSpace(t[i]) {
          assert t[i] == s[|s| - |t| + i];
        }
      }
      CollapseShape(t);
      var rt := CollapseSeparators(t);
      var r := CollapseSeparators(s);
      assert r == [r[0]] + rt;
      assert IsSlugChar(r[0]);
      assert t != [] ==> rt[0] != '-' || r[0] != '-';
      SlugPrepend(r[0], rt);
    }
  }

  lemma SlugPrepend(c: char, t: seq<char>)
    requires IsSlugChar(c) && AllSlugChars(t) && NoDoubleHyphen(t)
    requires t != [] ==> t[0] != '-' || c != '-'
    ensures AllSlugChars([c] + t) && NoDoubleHyphen([c] + t)
  {
    var r := [c] + t;
    forall i | 0 <= i < |r| - 1 ensures !(r[i] == '-' && r[i + 1] == '-') {
      if i > 0 {
        assert r[i] == t[i - 1] && r[i + 1] == t[i];
      }
    }
    forall i | 0 <= i < |r| ensures IsSlugChar(r[i]) {
      if i > 0 {
        assert r[i] == t[i - 1];
      }
    }
  }

  /** `_title_to_slug`: the problem title as it appears in a LeetCode URL. */
  function TitleToSlug(title: seq<char>): (slug: seq<char>)
    ensures IsSlug(slug)
  {
    var a := Lower(title);
    var b := RemoveDisallowed(a);
    var c := CollapseSeparators(b);
    RemoveDisallowedShape(a);
    CollapseShape(b);
    var slug := StripChar(c, '-');
    StripHyphensShape(c);
    slug
  }

  /** Stripping hyphens keeps the slug characters and the absence of double hyphens. */
  lemma {:induction false} StripHyphensShape(s: seq<char>)
    requires AllSlugChars(s) && NoDoubleHyphen(s)
    ensures AllSlugChars(StripChar(s, '-')) && NoDoubleHyphen(StripChar(s, '-'))
    decreases |s|
  {
    if s != [] {
      if s[0] == '-' {
        SlugCharsSlice(s, 1, |s|);
        assert s[1..|s|] == s[1..];
        StripHyphensShape(s[1..]);
      } else if s[|s| - 1] == '-' {
        SlugCharsSlice(s, 0, |s| - 1);
        assert s[0..|s| - 1] == s[..|s| - 1];
        StripHyphensShape(s[..|s| - 1]);
      }
    }
  }

  lemma SlugCharsSlice(s: seq<char>, i: nat, j: nat)
    requires i <= j <= |s| && AllSlugChars(s) && NoDoubleHyphen(s)
    ensures AllSlugChars(s[i..j]) && NoDoubleHyphen(s[i..j])
  {
    var t := s[i..j];
    forall k | 0 <= k < |t| ensures IsSlugChar(t[k]) {
      assert t[k] == s[i + k];
    }
    forall k | 0 <= k < |t| - 1 ensures !(t[k] == '-' && t[k + 1] == '-') {
      assert t[k] == s[i + k] && t[k + 1] == s[i + k + 1];
    }
  }

  /** The word characters of `s`, in order. */
  function WordChars(s: seq<char>): seq<char>
    decreases |s|
  {
    if s == [] then [] else (if IsWordChar(s[0]) then [s[0]] else []) + WordChars(s[1..])
  }

  lemma {:induction false} WordCharsAppend(a: seq<char>, b: seq<char>)
    ensures WordChars(a + b) == WordChars(a) + WordChars(b)
    decreases |a|
  {
    if a != [] {
      assert (a + b)[1..] == a[1..] + b;
      WordCharsAppend(a[1..], b);
    } else {
      assert a + b == b;
    }
  }

  lemma {:induction false} WordCharsRemoveDisallowed(s: seq<char>)
    ensures WordChars(RemoveDisallowed(s)) == WordChars(s)
    decreases |s|
  {
    if s != [] {
      WordCharsRemoveDisallowed(s[1..]);
      if IsWordChar(s[0]) || IsSeparator(s[0]) {
        assert ([s[0]] + RemoveDisallowed(s[1..]))[1..] == RemoveDisallowed(s[1..]);
      }
    }
  }

  lemma {:induction false} WordCharsDropSeparators(s: seq<char>)
    ensures WordChars(DropSeparators(s)) == WordChars(s)
    decreases |s|
  {
    if s != [] && IsSeparator(s[0]) {
      assert !IsWordChar(s[0]);
      assert WordChars(s) == WordChars(s[1..]);
      assert DropSeparators(s) == DropSeparators(s[1..]);
      WordCharsDropSeparators(s[1..]);
    }
  }

  lemma WordCharsCons(c: char, x: seq<char>)
    ensures WordChars([c] + x) == (if IsWordChar(c) then [c] else []) + WordChars(x)
  {
    assert ([c] + x)[1..] == x;
  }

  lemma {:induction false} WordCharsCollapse(s: seq<char>)
    ensures WordChars(CollapseSeparators(s)) == WordChars(s)
    decreases |s|
  {
    if s != [] {
      var c := s[0];
      var t := s[1..];
      assert WordChars(s) == (if IsWordChar(c) then [c] else []) + WordChars(t);
      if IsSeparator(c) {
        var d := DropSeparators(t);
        assert CollapseSeparators(s) == ['-'] + CollapseSeparators(d);
        WordCharsCons('-', CollapseSeparators(d));
        assert !IsWordChar(c) && !IsWordChar('-');
        WordCharsCollapse(d);
        WordCharsDropSeparators(t);
      } else {
        assert CollapseSeparators(s) == [c] + CollapseSeparators(t);
        WordCharsCons(c, CollapseSeparators(t));
        WordCharsCollapse(t);
      }
    }
  }

  lemma {:induction false} WordCharsStripChar(s: seq<char>, c: char)
    requires !IsWordChar(c)
    ensures WordChars(StripChar(s, c)) == WordChars(s)
    decreases |s|
  {
    if s == [] {
    } else if s[0] == c {
      assert StripChar(s, c) == StripChar(s[1..], c);
      assert WordChars(s) == WordChars(s[1..]);
      WordCharsStripChar(s[1..], c);
    } else if s[|s| - 1] == c {
      var init := s[..|s| - 1];
      assert StripChar(s, c) == StripChar(init, c);
      assert WordChars(s) == WordChars(init) by {
        assert s == init + [c];
        WordCharsDropLast(init, c);
      }
      WordCharsStripChar(init, c);
    } else {
      assert StripChar(s, c) == s;
    }
  }

  /** A trailing character that is not a word character adds nothing. */
  lemma {:induction false} WordCharsDropLast(s: seq<char>, c: char)
    requires !IsWordChar(c)
    ensures WordChars(s + [c]) == WordChars(s)
    decreases |s|
  {
    if s == [] {
      assert [c][1..] == [];
      assert WordChars([c]) == WordChars([c][1..]);
    } else {
      assert (s + [c])[1..] == s[1..] + [c];
      assert WordChars(s + [c]) == (if IsWordChar(s[0]) then [s[0]] else []) + WordChars(s[1..] + [c]);
      WordCharsDropLast(s[1..], c);
    }
  }

  /**
   * The slug keeps exactly the letters, digits and underscores of the
   * lower-cased title, in their order; everything else it adds or keeps is a hyphen.
   */
  lemma SlugKeepsWordChars(title: seq<char>)
    ensures WordChars(TitleToSlug(title)) == WordChars(Lower(title))
  {
    var a := Lower(title);
    var b := RemoveDisallowed(a);
    var c := CollapseSeparators(b);
    WordCharsRemoveDisallowed(a);
    WordCharsCollapse(b);
    WordCharsStripChar(c, '-');
  }

  lemma {:induction false} RemoveDisallowedKeeps(s: seq<char>)
    requires AllSlugChars(s)
    ensures RemoveDisallowed(s) == s
    decreases |s|
  {
    if s != [] {
      RemoveDisallowedKeeps(s[1..]);
      assert s == [s[0]] + s[1..];
    }
  }

  lemma {:induction false} CollapseKeeps(s: seq<char>)
    requires AllSlugChars(s) && NoDoubleHyphen(s)
    ensures CollapseSeparators(s) == s
    decreases |s|
  {
    if s != [] {
      var t := s[1..];
      SlugCharsSlice(s, 1, |s|);
      assert s[1..|s|] == t;
      CollapseKeeps(t);
      if IsSeparator(s[0]) {
        assert s[0] == '-';
        assert t != [] ==> t[0] == s[1] && !IsSeparator(t[0]);
        assert DropSeparators(t) == t;
      }
      assert s == [s[0]] + t;
    }
  }

  /** A slug is its own slug. */
  lemma SlugFixpoint(s: seq<char>)
    requires IsSlug(s)
    ensures TitleToSlug(s) == s
  {
    var a := Lower(s);
    assert a == s;
    RemoveDisallowedKeeps(s);
    CollapseKeeps(s);
  }

  /** Making a slug twice changes nothing the second time. */
  lemma SlugIdempotent(title: seq<char>)
    ensures TitleToSlug(TitleToSlug(title)) == TitleToSlug(title)
  {
    SlugFixpoint(TitleToSlug(title));
  }

  // ---------------------------------------------------------------------------
  // Problem and task records

  const LeetCodePrefix: seq<char> := "https://leetcode.com/problems/"
  const BonusText: seq<char> := "Bonus:"

  /** The record for one `* LC n: title` match. */
  function ProblemOf(number: seq<char>, title: seq<char>): Problem
    requires AllDigits(number)
  {
    Problem(number, title, GuessDifficulty(DigitsValue(number)), LeetCodePrefix + TitleToSlug(title) + "/")
  }

  predicate NumbersAreDigits(ms: seq<(seq<char>, seq<char>)>) {
    forall k :: 0 <= k < |ms| ==> AllDigits(ms[k].0)
  }

  /** One problem per LC match, in match order. */
  function ProblemsOf(ms: seq<(seq<char>, seq<char>)>): (ps: seq<Problem>)
    requires NumbersAreDigits(ms)
    ensures |ps| == |ms|
    ensures forall k :: 0 <= k < |ms| ==>
              && ps[k].number == ms[k].0 && ps[k].title == ms[k].1
              && ps[k].difficulty == GuessDifficulty(DigitsValue(ms[k].0))
              && ps[k].url == LeetCodePrefix + TitleToSlug(ms[k].1) + "/"
  {
    seq(|ms|, k requires 0 <= k < |ms| => ProblemOf(ms[k].0, ms[k].1))
  }

  /** The record for one `* text` match: a bonus task exactly when the text opens with `Bonus:`. */
  function TaskOf(text: seq<char>): Task {
    Task(text, BonusText <= text)
  }

  /** One task per bullet match, in match order. */
  function TasksOf(texts: seq<seq<char>>): (ts: seq<Task>)
    ensures |ts| == |texts|
    ensures forall k :: 0 <= k < |texts| ==> ts[k].description == texts[k] && (ts[k].isBonus <==> BonusText <= texts[k])
  {
    seq(|texts|, k requires 0 <= k < |texts| => TaskOf(texts[k]))
  }

  lemma ProblemsOfNext(ms: seq<(seq<char>, seq<char>)>, i: nat)
    requires NumbersAreDigits(ms) && i < |ms|
    ensures ProblemsOf(ms)[..i + 1] == ProblemsOf(ms)[..i] + [ProblemOf(ms[i].0, ms[i].1)]
  {
    var all := ProblemsOf(ms);
    TakeNext(all, i);
    assert all[i] == ProblemOf(ms[i].0, ms[i].1);
  }

  lemma TasksOfNext(texts: seq<seq<char>>, i: nat)
    requires i < |texts|
    ensures TasksOf(texts)[..i + 1] == TasksOf(texts)[..i] + [TaskOf(texts[i])]
  {
    var all := TasksOf(texts);
    assert all[..i + 1] == all[..i] + [all[i]];
  }

  /** A `* LC <digits>: <title>` line yields one problem with its number, title, difficulty and link. */
  lemma ProblemLine(num: seq<char>, title: seq<char>)
    requires |num| >= 1 && AllDigits(num)
    requires |title| >= 1 && '\n' !in title
    ensures ProblemsOf(FindAllLc(LcText + num + ColonSpace + title))
            == [Problem(num, title, GuessDifficulty(DigitsValue(num)),
                        "https://leetcode.com/problems/" + TitleToSlug(title) + "/")]
  {
    LcLine(num, title);
  }

  /** The problems of two lines are those of the first line followed by those of the second. */
  lemma ProblemLines(l: seq<char>, r: seq<char>)
    requires '\n' !in l
    ensures ProblemsOf(FindAllLc(l + "\n" + r)) == ProblemsOf(FindAllLc(l)) + ProblemsOf(FindAllLc(r))
  {
    FindAllLcLines(l, r);
    ProblemsOfAppend(FindAllLc(l), FindAllLc(r));
  }

  lemma ProblemsOfAppend(a: seq<(seq<char>, seq<char>)>, b: seq<(seq<char>, seq<char>)>)
    requires NumbersAreDigits(a) && NumbersAreDigits(b)
    ensures NumbersAreDigits(a + b) && ProblemsOf(a + b) == ProblemsOf(a) + ProblemsOf(b)
  {
    assert NumbersAreDigits(a + b) by {
      forall k | 0 <= k < |a + b| ensures AllDigits((a + b)[k].0) {
        if k < |a| { assert (a + b)[k] == a[k]; } else { assert (a + b)[k] == b[k - |a|]; }
      }
    }
    var x, y := ProblemsOf(a + b), ProblemsOf(a) + ProblemsOf(b);
    forall k | 0 <= k < |x| ensures x[k] == y[k] {
      if k < |a| { assert (a + b)[k] == a[k]; } else { assert (a + b)[k] == b[k - |a|]; }
    }
    assert x == y;
  }

  /** A `* <text>` line yields one task: its text verbatim, a bonus exactly when it opens with `Bonus:`. */
  lemma TaskLine(text: seq<char>)
    requires |text| >= 1 && '\n' !in text
    ensures TasksOf(FindAllBullets(BulletText + text)) == [Task(text, "Bonus:" <= text)]
  {
    BulletLine(text);
  }

  /** The tasks of two lines are those of the first line followed by those of the second. */
  lemma TaskLines(l: seq<char>, r: seq<char>)
    requires '\n' !in l
    ensures TasksOf(FindAllBullets(l + "\n" + r)) == TasksOf(FindAllBullets(l)) + TasksOf(FindAllBullets(r))
  {
    FindAllBulletsLines(l, r);
    TasksOfAppend(FindAllBullets(l), FindAllBullets(r));
  }

  lemma TasksOfAppend(a: seq<seq<char>>, b: seq<seq<char>>)
    ensures TasksOf(a + b) == TasksOf(a) + TasksOf(b)
  {
    var x, y := TasksOf(a + b), TasksOf(a) + TasksOf(b);
    forall k | 0 <= k < |x| ensures x[k] == y[k] {
      if k < |a| { assert (a + b)[k] == a[k]; } else { assert (a + b)[k] == b[k - |a|]; }
    }
    assert x == y;
  }

  // ---------------------------------------------------------------------------
  // The DSA and SYSTEM DESIGN blocks of a day

  /** The stripped text after the first `📌 Goal: ` that has something after it, or `""`. */
  function GoalOf(block: seq<char>): seq<char> {
    match Search(block, GoalAt)
    case Some(g) => Strip(g)
    case None => ""
  }

  /** `_parse_dsa_section`: the block title, one problem per LC line, and the goal. */
  function DsaSection(text: seq<char>): (seq<char>, seq<Problem>, seq<char>) {
    match Search(text, DsaAt)
    case None => ("", [], "")
    case Some(sec) =>
      var body := Strip(sec.body);
      (Strip(sec.title), ProblemsOf(FindAllLc(body)), GoalOf(body))
  }

  /** `_parse_system_design_section`: the block title and one task per bullet line. */
  function SystemDesignSection(text: seq<char>): (seq<char>, seq<Task>) {
    match Search(text, SystemDesignAt)
    case None => ("", [])
    case Some(sec) => (Strip(sec.title), TasksOf(FindAllBullets(Strip(sec.body))))
  }

  /** A text in which the DSA header never occurs has an empty DSA block and no error. */
  lemma MissingDsaBlock(text: seq<char>)
    requires forall p :: 0 <= p <= |text| ==> !(DsaHeader <= text[p..])
    ensures DsaSection(text) == ("", [], "")
  {
    forall p | 0 <= p <= |text| ensures DsaAt(text[p..]).None? {
      assert !(DsaHeader <= text[p..]);
    }
  }

  /** A text in which the SYSTEM DESIGN header never occurs has an empty block and no error. */
  lemma MissingSystemDesignBlock(text: seq<char>)
    requires forall p :: 0 <= p <= |text| ==> !(SystemDesignHeader <= text[p..])
    ensures SystemDesignSection(text) == ("", [])
  {
    forall p | 0 <= p <= |text| ensures SystemDesignAt(text[p..]).None? {
      assert !(SystemDesignHeader <= text[p..]);
    }
  }

  /** The title group ends at the first `**` + newline, which on a one-line title is right after it. */
  lemma HeaderCloseAfterTitle(h: seq<char>, t: seq<char>, tail: seq<char>)
    requires |t| >= 1 && '\n' !in t && HeaderClose <= tail
    ensures HeaderCloseFrom(h + t + tail, |h| + 1) == Some(|h| + |t|)
  {
    var s := h + t + tail;
    assert s[|h| + |t|..] == tail;
    forall k | |h| + 1 <= k < |h| + |t| ensures !(HeaderClose <= s[k..]) {
      if k + 2 < |h| + |t| {
        assert s[k + 2] == t[k + 2 - |h|];
      } else {
        assert s[k + 2] == tail[k + 2 - |h| - |t|];
      }
      assert s[k..][2] == s[k + 2];
    }
  }

  /** The body group ends at `e` when `e` is the first place from `b` where `stop` starts, or the end. */
  lemma BodyEndAt(s: seq<char>, stop: seq<char>, b: nat, e: nat)
    requires b <= e <= |s|
    requires forall k :: b <= k < e ==> !(stop <= s[k..])
    requires e == |s| || stop <= s[e..]
    ensures BodyEnd(s, stop, b) == e
  {
  }

  lemma SectionBodyEnd(header: seq<char>, stop: seq<char>, title: seq<char>, body: seq<char>, rest: seq<char>)
    requires forall k :: 0 <= k < |body| ==> !(stop <= (body + rest)[k..])
    requires rest == [] || stop <= rest
    ensures var s := header + title + HeaderClose + body + rest;
      var b := |header| + |title| + |HeaderClose|;
      BodyEnd(s, stop, b) == b + |body| && s[b..b + |body|] == body
  {
    var s := header + title + HeaderClose + body + rest;
    var b := |header| + |title| + |HeaderClose|;
    assert s == (header + title + HeaderClose) + (body + rest);
    forall k | b <= k < b + |body| ensures !(stop <= s[k..]) {
      assert s[k..] == (body + rest)[k - b..];
    }
    assert s[b + |body|..] == rest;
    BodyEndAt(s, stop, b, b + |body|);
    assert s[b..b + |body|] == body;
  }

  /** A block laid out as header, one-line title, `**` + newline, body, then the stop text or the end. */
  lemma SectionLaidOut(header: seq<char>, stop: seq<char>, title: seq<char>, body: seq<char>, rest: seq<char>)
    requires |title| >= 1 && '\n' !in title
    requires forall k :: 0 <= k < |body| ==> !(stop <= (body + rest)[k..])
    requires rest == [] || stop <= rest
    ensures SectionAt(header + title + HeaderClose + body + rest, header, stop) == Some(Section(title, body))
  {
    var s := header + title + HeaderClose + body + rest;
    var tail := HeaderClose + body + rest;
    assert s == header + title + tail by {
      AppendAssoc(header + title + HeaderClose, body, rest);
      AppendAssoc(header + title, HeaderClose, body + rest);
      AppendAssoc(HeaderClose, body, rest);
    }
    LaidOutPieces(header, title, tail);
    HeaderCloseAfterTitle(header, title, tail);
    SectionBodyEnd(header, stop, title, body, rest);
    SectionAtFound(s, header, stop, |header| + |title|, title, body);
  }

  /** The header and the title are where the layout puts them. */
  lemma LaidOutPieces(header: seq<char>, title: seq<char>, tail: seq<char>)
    ensures var s := header + title + tail;
      header <= s && s[|header|..|header| + |title|] == title
  {
    var s := header + title + tail;
    assert s[..|header|] == header;
  }

  /** The block match once the title's closing `**` + newline is found at `e` and the body's end after it. */
  lemma SectionAtFound(s: seq<char>, header: seq<char>, stop: seq<char>, e: nat, title: seq<char>, body: seq<char>)
    requires header <= s && |header| + 1 <= e <= |s| && HeaderCloseFrom(s, |header| + 1) == Some(e)
    requires s[|header|..e] == title
    requires e + |HeaderClose| + |body| <= |s|
    requires BodyEnd(s, stop, e + |HeaderClose|) == e + |HeaderClose| + |body|
    requires s[e + |HeaderClose|..e + |HeaderClose| + |body|] == body
    ensures SectionAt(s, header, stop) == Some(Section(title, body))
  {
  }

  /**
   * A DSA block after a preamble without `🎯`: its title is the stripped title
   * line, its problems come from the stripped body, and the body stops at the
   * first `🧠`.
   */
  lemma DsaBlockParsed(pre: seq<char>, title: seq<char>, body: seq<char>, rest: seq<char>)
    requires DsaHeader[0] !in pre
    requires |title| >= 1 && '\n' !in title
    requires BrainStop[0] !in body
    requires rest == [] || BrainStop <= rest
    ensures var text := pre + DsaHeader + title + HeaderClose + body + rest;
      var b := Strip(body);
      DsaSection(text) == (Strip(title), ProblemsOf(FindAllLc(b)), GoalOf(b))
  {
    var block := DsaHeader + title + HeaderClose + body + rest;
    var text := pre + DsaHeader + title + HeaderClose + body + rest;
    assert text == pre + block;
    forall k | 0 <= k < |body| ensures !(BrainStop <= (body + rest)[k..]) {
      assert (body + rest)[k] == body[k];
    }
    SectionLaidOut(DsaHeader, BrainStop, title, body, rest);
    DsaPastPreamble(pre, block);
  }

  /**
   * A SYSTEM DESIGN block after a preamble without `🧠`: its title is the
   * stripped title line and its tasks come from the stripped body, which stops
   * at the first `---`.
   */
  lemma SystemDesignBlockParsed(pre: seq<char>, title: seq<char>, body: seq<char>, rest: seq<char>)
    requires SystemDesignHeader[0] !in pre
    requires |title| >= 1 && '\n' !in title
    requires forall k :: 0 <= k < |body| ==> !(RuleStop <= (body + rest)[k..])
    requires rest == [] || RuleStop <= rest
    ensures var text := pre + SystemDesignHeader + title + HeaderClose + body + rest;
      SystemDesignSection(text) == (Strip(title), TasksOf(FindAllBullets(Strip(body))))
  {
    var block := SystemDesignHeader + title + HeaderClose + body + rest;
    var text := pre + SystemDesignHeader + title + HeaderClose + body + rest;
    assert text == pre + block;
    SectionLaidOut(SystemDesignHeader, RuleStop, title, body, rest);
    SystemDesignPastPreamble(pre, block);
  }

  /** Without `📌 Goal: ` in the block the goal is empty. */
  lemma GoalMissing(block: seq<char>)
    requires forall p :: 0 <= p <= |block| ==> !(GoalText <= block[p..])
    ensures GoalOf(block) == ""
  {
    forall p | 0 <= p <= |block| ensures GoalAt(block[p..]).None? {
      assert !(GoalText <= block[p..]);
    }
  }

  /** The goal is the stripped rest of the line after the first `📌 Goal: `. */
  lemma GoalFound(pre: seq<char>, goal: seq<char>, rest: seq<char>)
    requires GoalText[0] !in pre
    requires |goal| >= 1 && '\n' !in goal
    requires rest == [] || rest[0] == '\n'
    ensures GoalOf(pre + GoalText + goal + rest) == Strip(goal)
  {
    var block := pre + GoalText + goal + rest;
    var t := block[|pre|..];
    assert t == GoalText + (goal + rest);
    assert t[|GoalText|..] == goal + rest;
    FirstLineStops(goal, rest);
    assert GoalAt(t) == Some(goal);
    forall q | 0 <= q < |pre| ensures GoalAt(block[q..]).None? {
      assert block[q..][0] == pre[q];
    }
    FirstMatchAt(block, GoalAt, 0, |pre|);
  }

  // ---------------------------------------------------------------------------
  // Days

  /** `content.strip().split('\n')[0].strip()`: the header line of a segment. */
  function HeaderLine(text: seq<char>): (line: seq<char>)
    ensures '\n' !in line
  {
    var first := FirstLine(Strip(text));
    StripKeepsAbsent(first, '\n');
    Strip(first)
  }

  /** `info.split(': ', 1)`: the stripped date and title, or the whole text and `""`. */
  function DateAndTitle(info: seq<char>): (seq<char>, seq<char>) {
    match SplitOnce(info, ColonSpace)
    case Some(parts) => (Strip(parts.0), Strip(parts.1))
    case None => (info, "")
  }

  /** The date is the stripped text before the first `: `, the title the stripped text after it. */
  lemma DateAndTitleSplit(date: seq<char>, title: seq<char>)
    requires forall k :: 0 <= k < |date| ==> !OccursAt(date + ColonSpace + title, k, ColonSpace)
    ensures DateAndTitle(date + ColonSpace + title) == (Strip(date), Strip(title))
  {
    var s := date + ColonSpace + title;
    assert OccursAt(s, |date|, ColonSpace) by {
      assert s[|date|..|date| + |ColonSpace|] == ColonSpace;
    }
    var r := SplitOnce(s, ColonSpace);
    var a := r.value.0;
    assert |a| == |date|;
    assert a == s[..|a|] == date;
    assert r.value.1 == s[|a| + |ColonSpace|..] == title;
  }

  /** Without `: ` the whole header text is the date and the title is empty. */
  lemma DateAndTitleNoSeparator(info: seq<char>)
    requires forall k :: 0 <= k <= |info| ==> !OccursAt(info, k, ColonSpace)
    ensures DateAndTitle(info) == (info, "")
  {
  }

  /** `int(m.group(1))` for the first `DAY n` in the header line, or 0. */
  function DayNumberOf(line: seq<char>): nat {
    match Search(line, DayNumberAt)
    case Some(d) => DigitsValue(d)
    case None => 0
  }

  /** The `– …` text of a segment's header line, when there is one. */
  function DayHeader(text: seq<char>): Option<seq<char>> {
    Search(HeaderLine(text), DashAt)
  }

  /** `_parse_day`: nothing when the header line has no `– …`, otherwise the day record. */
  function DayOf(text: seq<char>): (d: Option<Day>)
    ensures d.None? <==> DayHeader(text).None?
  {
    var line := HeaderLine(text);
    match DayHeader(text)
    case None => None
    case Some(info) =>
      var dt := DateAndTitle(Strip(info));
      var dsa := DsaSection(text);
      var sd := SystemDesignSection(text);
      Some(Day(DayNumberOf(line), dt.0, dt.1, dsa.0, dsa.1, dsa.2, sd.0, sd.1))
  }

  /** A day segment is dropped exactly when its header line has no `– ` followed by some text. */
  lemma DayDropped(text: seq<char>)
    ensures var line := HeaderLine(text);
      DayOf(text).None? <==> !exists p :: 0 <= p && p + |DashText| < |line| && DashText <= line[p..]
  {
    DashSearchIff(HeaderLine(text));
    assert DayOf(text).None? <==> DayHeader(text).None?;
  }

  /**
   * The split on the day marker consumes `DAY n`, so unless the header line
   * spells out `DAY ` again the day number is 0.
   */
  lemma DayNumberDefault(line: seq<char>)
    requires forall p :: 0 <= p <= |line| ==> !(DayWordText <= line[p..])
    ensures DayNumberOf(line) == 0
  {
    forall p | 0 <= p <= |line| ensures DayNumberAt(line[p..]).None? {
      assert !(DayWordText <= line[p..]);
    }
  }

  /** The number after the first `DAY ` on the header line is the day number. */
  lemma DayNumberFound(pre: seq<char>, d: seq<char>, rest: seq<char>)
    requires forall p :: 0 <= p < |pre| ==> !(DayWordText <= (pre + (DayWordText + d + rest))[p..])
    requires |d| >= 1 && AllDigits(d) && (rest == [] || !IsDigit(rest[0]))
    ensures DayNumberOf(pre + (DayWordText + d + rest)) == DigitsValue(d)
  {
    var line := pre + (DayWordText + d + rest);
    assert DayNumberAt(line[|pre|..]) == Some(d) by {
      assert line[|pre|..] == DayWordText + d + rest;
      DayNumberAtDigits(d, rest);
    }
    assert forall q :: 0 <= q < |pre| ==> DayNumberAt(line[q..]).None?;
    SearchFirst(line, DayNumberAt, |pre|);
  }

  /**
   * A header line `pre – info` followed by `**` or by the line end, with no
   * `– ` in `pre` and no `**` inside `info` after its first character, gives
   * the date and title that splitting the stripped `info` on `: ` does.
   */
  lemma DayHeaderParsed(text: seq<char>, pre: seq<char>, info: seq<char>, tail: seq<char>)
    requires HeaderLine(text) == pre + (DashText + info + tail)
    requires forall p :: 0 <= p < |pre| ==> !(DashText <= (pre + (DashText + info + tail))[p..])
    requires |info| >= 1 && forall k :: 1 <= k < |info| ==> !("**" <= (info + tail)[k..])
    requires tail == [] || "**" <= tail
    ensures DayOf(text).Some?
    ensures DayOf(text).value.date == DateAndTitle(Strip(info)).0
    ensures DayOf(text).value.title == DateAndTitle(Strip(info)).1
  {
    DashSearchInfo(pre, info, tail);
  }

  /** The records of the segments that are kept, in segment order. */
  function KeptDays(segs: seq<seq<char>>): (days: seq<Day>)
    ensures |days| <= |segs|
  {
    Somes(Map(DayOf, segs))
  }

  /** Keeping days works segment by segment: a dropped segment contributes nothing, a kept one its record. */
  lemma KeptDaysAppend(a: seq<seq<char>>, b: seq<seq<char>>)
    ensures KeptDays(a + b) == KeptDays(a) + KeptDays(b)
  {
    MapAppend(DayOf, a, b);
    SomesAppend(Map(DayOf, a), Map(DayOf, b));
  }

  /** Segments that all have a day header are all kept, in order. */
  lemma KeptDaysAll(segs: seq<seq<char>>)
    requires forall k :: 0 <= k < |segs| ==> DayOf(segs[k]).Some?
    ensures |KeptDays(segs)| == |segs|
    ensures forall k :: 0 <= k < |segs| ==> KeptDays(segs)[k] == DayOf(segs[k]).value
  {
    SomesAll(Map(DayOf, segs));
  }

  /** Segments none of which has a day header yield no days. */
  lemma KeptDaysNone(segs: seq<seq<char>>)
    requires forall k :: 0 <= k < |segs| ==> DayOf(segs[k]).None?
    ensures KeptDays(segs) == []
  {
    SomesNone(Map(DayOf, segs));
  }

  // ---------------------------------------------------------------------------
  // Weeks

  /** The week title and date range: the `title (range)` groups stripped, or the whole line and `""`. */
  function TitleAndRange(line: seq<char>): (seq<char>, seq<char>) {
    match Search(line, TitleAt)
    case Some(groups) => (Strip(groups.0), Strip(groups.1))
    case None => (line, "")
  }

  /** A header line without a parenthesised range is the title, with an empty date range. */
  lemma TitleFallback(line: seq<char>)
    requires '\n' !in line
    ensures Search(line, TitleAt).None? <==> !HasParenGroup(line)
    ensures !HasParenGroup(line) ==> TitleAndRange(line) == (line, "")
  {
    TitleSearchIff(line);
  }

  /** `title (range)`, with no `(` in the title and no `)` in the range, gives both parts stripped. */
  lemma TitleRangeParsed(t: seq<char>, r: seq<char>)
    requires '\n' !in t + r && |t| >= 1 && |r| >= 1 && '(' !in t && ')' !in r
    ensures TitleAndRange(t + " (" + r + ")") == (Strip(t), Strip(r))
  {
    var line := t + " (" + r + ")";
    var k := TitleFromBeforeRange(t, r, 1);
    assert line[0] == t[0] && line[0..] == line;
    SearchFirst(line, TitleAt, 0);
    assert t[..k] + t[k..] == t;
    StripTrailingSpaces(t[..k], t[k..]);
  }

  /** The header of a week piece is its first non-blank line, stripped. */
  lemma HeaderLineOf(lead: seq<char>, line: seq<char>, body: seq<char>)
    requires AllSpace(lead) && '\n' !in line
    requires line != [] && !IsSpace(line[0]) && !IsSpace(line[|line| - 1])
    ensures HeaderLine(lead + line + "\n" + body) == line
  {
    StripLeadingLine(lead, line, body);
    FirstLineOfTrimmed(line, "\n" + body);
    StripClean(line);
  }

  lemma StripLeadingLine(lead: seq<char>, line: seq<char>, body: seq<char>)
    requires AllSpace(lead) && line != [] && !IsSpace(line[0])
    ensures Strip(lead + line + "\n" + body) == TrimEnd(line + ("\n" + body))
  {
    assert lead + line + "\n" + body == lead + (line + ("\n" + body));
    TrimStartOf(lead, line + ("\n" + body));
  }

  /** `rstrip` cannot reach into a line that ends with a non-space, so the first line survives. */
  lemma FirstLineOfTrimmed(line: seq<char>, rest: seq<char>)
    requires '\n' !in line && line != [] && !IsSpace(line[|line| - 1])
    requires rest == [] || rest[0] == '\n'
    ensures FirstLine(TrimEnd(line + rest)) == line
  {
    var y := TrimEndKeeps(line, rest);
    FirstLineStops(line, y);
  }

  /** A week whose piece starts with a `title (range)` line gets that title and range. */
  lemma WeekTitleParsed(number: nat, lead: seq<char>, t: seq<char>, r: seq<char>, body: seq<char>)
    requires AllSpace(lead)
    requires '\n' !in t + r && |t| >= 1 && |r| >= 1 && '(' !in t && ')' !in r && !IsSpace(t[0])
    ensures var w := WeekOf(number, lead + (t + " (" + r + ")") + "\n" + body);
      w.title == Strip(t) && w.dateRange == Strip(r)
  {
    var line := t + " (" + r + ")";
    assert line[0] == t[0] && line[|line| - 1] == ')';
    HeaderLineOf(lead, line, body);
    TitleRangeParsed(t, r);
  }

  /** The pieces after each day marker. */
  function DaySegments(text: seq<char>): (segs: seq<seq<char>>)
    ensures |segs| == MarkerCount(DayMarker, text, true)
  {
    SplitCount(DayMarker, text, true);
    Split(DayMarker, text, true)[1..]
  }

  /** `_parse_week`: the numbered week with its title, range and kept days. */
  function WeekOf(number: nat, text: seq<char>): (w: Week)
    ensures w.number == number
    ensures |w.days| <= MarkerCount(DayMarker, text, true)
  {
    var tr := TitleAndRange(HeaderLine(text));
    Week(number, tr.0, tr.1, KeptDays(DaySegments(text)))
  }

  /**
   * When every day segment has a `– …` header, the week has one day per
   * `**💥 MACHINE MODE: DAY n` marker, the k-th built from the k-th segment.
   */
  lemma WeekDaysParsed(number: nat, text: seq<char>)
    requires forall k :: 0 <= k < |DaySegments(text)| ==> DayOf(DaySegments(text)[k]).Some?
    ensures |WeekOf(number, text).days| == MarkerCount(DayMarker, text, true)
    ensures forall k :: 0 <= k < |WeekOf(number, text).days| ==>
              WeekOf(number, text).days[k] == DayOf(DaySegments(text)[k]).value
  {
    KeptDaysAll(DaySegments(text));
  }

  /** The pieces after each `## WEEK n:` marker; the text before the first is discarded. */
  function WeekSegments(text: seq<char>): (segs: seq<seq<char>>)
    ensures |segs| == MarkerCount(WeekMarker, text, true)
  {
    SplitCount(WeekMarker, text, true);
    Split(WeekMarker, text, true)[1..]
  }

  /** `parse`: one week per marker, numbered from 1 in text order, none filtered out. */
  function ParsedWeeks(text: seq<char>): (ws: seq<Week>)
    ensures |ws| == MarkerCount(WeekMarker, text, true)
    ensures forall k :: 0 <= k < |ws| ==> ws[k].number == k + 1
  {
    var segs := WeekSegments(text);
    seq(|segs|, k requires 0 <= k < |segs| => WeekOf(k + 1, segs[k]))
  }

  /**
   * Text before the first week marker is ignored: a preamble none of whose
   * lines opens with a `## WEEK n:` marker changes nothing.
   */
  lemma PreambleIgnored(pre: seq<char>, rest: seq<char>)
    requires pre == [] || pre[|pre| - 1] == '\n'
    requires forall i :: 0 <= i < |pre| && (i == 0 || pre[i - 1] == '\n') ==> MarkerLen(WeekMarker, pre[i..], true) == 0
    ensures ParsedWeeks(pre + rest) == ParsedWeeks(rest)
  {
    var s := pre + rest;
    forall i | 0 <= i < |pre| ensures MarkerLen(WeekMarker, s[i..], BolAt(s, i, true)) == 0 {
      if BolAt(s, i, true) {
        assert i == 0 || pre[i - 1] == '\n';
        assert s[i..] == pre[i..] + rest;
        WeekMarkerLineEnd(pre[i..], rest, true);
      }
    }
    SplitPreamble(WeekMarker, pre, rest, true, true);
  }

  // ---------------------------------------------------------------------------
  // The parser object

  /**
   * `MarkdownParser`: holds the plan text and accumulates the parsed weeks.
   * Each step method is proved equal to the function above that specifies it.
   */
  class MarkdownParser {
    const content: seq<char>
    var weeks: seq<Week>

    constructor (mdContent: seq<char>)
      ensures content == mdContent && weeks == []
    {
      content := mdContent;
      weeks := [];
    }

    /** `parse`: appends one week per `## WEEK n:` marker, numbered from 1, and returns the list. */
    method Parse() returns (r: seq<Week>)
      modifies this
      ensures weeks == old(weeks) + ParsedWeeks(content)
      ensures r == weeks
    {
      var weekSections := WeekSegments(content);
      ghost var all := ParsedWeeks(content);
      ghost var start := weeks;
      var i := 0;
      while i < |weekSections|
        invariant 0 <= i <= |weekSections|
        invariant weeks == start + all[..i]
      {
        var week := ParseWeek(i + 1, weekSections[i]);
        TakeNext(all, i);
        AppendAssoc(start, all[..i], [week]);
        weeks := weeks + [week];
        i := i + 1;
      }
      assert all[..i] == all;
      r := weeks;
    }

    /** `_parse_week`: the title line's title and range, and the day of every day segment that has one. */
    static method ParseWeek(weekNum: nat, text: seq<char>) returns (w: Week)
      ensures w == WeekOf(weekNum, text)
      ensures |w.days| <= MarkerCount(DayMarker, text, true)
      ensures (forall k :: 0 <= k < |DaySegments(text)| ==> DayOf(DaySegments(text)[k]).Some?) ==>
                && |w.days| == MarkerCount(DayMarker, text, true)
                && forall k :: 0 <= k < |w.days| ==> w.days[k] == DayOf(DaySegments(text)[k]).value
    {
      var titleLine := HeaderLine(text);
      var (weekTitle, dateRange) := TitleAndRange(titleLine);
      var days := ParseDays(DaySegments(text));
      w := Week(weekNum, weekTitle, dateRange, days);
      assert (forall k :: 0 <= k < |DaySegments(text)| ==> DayOf(DaySegments(text)[k]).Some?) ==>
               && |w.days| == MarkerCount(DayMarker, text, true)
               && forall k :: 0 <= k < |w.days| ==> w.days[k] == DayOf(DaySegments(text)[k]).value by {
        if forall k :: 0 <= k < |DaySegments(text)| ==> DayOf(DaySegments(text)[k]).Some? {
          WeekDaysParsed(weekNum, text);
        }
      }
    }

    /** The `for day_section in day_sections` loop of `_parse_week`: the day of each segment that has one, in order. */
    static method ParseDays(daySections: seq<seq<char>>) returns (days: seq<Day>)
      ensures days == KeptDays(daySections)
    {
      days := [];
      var i := 0;
      while i < |daySections|
        invariant 0 <= i <= |daySections|
        invariant days == KeptDays(daySections[..i])
      {
        var day := ParseDay(daySections[i]);
        SomesMapNext(DayOf, daySections, i, days, day);
        if day.Some? {
          days := days + [day.value];
        }
        i := i + 1;
      }
      assert daySections[..i] == daySections;
    }

    /** `_parse_day`: no day without a `– …` header, otherwise its date, title, number and blocks. */
    static method ParseDay(text: seq<char>) returns (d: Option<Day>)
      ensures d == DayOf(text)
    {
      var headerLine := HeaderLine(text);
      var dayMatch := Search(headerLine, DashAt);
      if dayMatch.None? {
        return None;
      }
      var dayInfo := Strip(dayMatch.value);
      var (datePart, titlePart) := DateAndTitle(dayInfo);
      var dayNumber := DayNumberOf(headerLine);
      var dsaTitle, dsaProblems, dsaGoal := ParseDsaSection(text);
      var sdTitle, sdTasks := ParseSystemDesignSection(text);
      d := Some(Day(dayNumber, datePart, titlePart, dsaTitle, dsaProblems, dsaGoal, sdTitle, sdTasks));
    }

    /** `_parse_dsa_section`: the block title, one problem per LC line in order, and the goal. */
    static method ParseDsaSection(text: seq<char>) returns (title: seq<char>, problems: seq<Problem>, goal: seq<char>)
      ensures (title, problems, goal) == DsaSection(text)
    {
      var dsaMatch := Search(text, DsaAt);
      if dsaMatch.None? {
        return "", [], "";
      }
      title := Strip(dsaMatch.value.title);
      var body := Strip(dsaMatch.value.body);
      problems := ProblemsFromMatches(FindAllLc(body));
      goal := "";
      var goalMatch := Search(body, GoalAt);
      if goalMatch.Some? {
        goal := Strip(goalMatch.value);
      }
    }

    /** `_parse_system_design_section`: the block title and one task per bullet line in order. */
    static method ParseSystemDesignSection(text: seq<char>) returns (title: seq<char>, tasks: seq<Task>)
      ensures (title, tasks) == SystemDesignSection(text)
    {
      var sdMatch := Search(text, SystemDesignAt);
      if sdMatch.None? {
        return "", [];
      }
      title := Strip(sdMatch.value.title);
      tasks := TasksFromMatches(FindAllBullets(Strip(sdMatch.value.body)));
    }

    /** The `for num, title in problem_matches` loop of `_parse_dsa_section`: one problem per match, in order. */
    static method ProblemsFromMatches(problemMatches: seq<(seq<char>, seq<char>)>) returns (problems: seq<Problem>)
      requires NumbersAreDigits(problemMatches)
      ensures problems == ProblemsOf(problemMatches)
    {
      problems := [];
      var i := 0;
      while i < |problemMatches|
        invariant 0 <= i <= |problemMatches|
        invariant problems == ProblemsOf(problemMatches)[..i]
      {
        var (num, problemTitle) := problemMatches[i];
        var difficulty := GuessDifficulty(DigitsValue(num));
        var url := LeetCodePrefix + TitleToSlug(problemTitle) + "/";
        ProblemsOfNext(problemMatches, i);
        problems := problems + [Problem(num, problemTitle, difficulty, url)];
        i := i + 1;
      }
      assert ProblemsOf(problemMatches)[..i] == ProblemsOf(problemMatches);
    }

    /** The `for task_text in task_matches` loop of `_parse_system_design_section`: one task per match, in order. */
    static method TasksFromMatches(taskMatches: seq<seq<char>>) returns (tasks: seq<Task>)
      ensures tasks == TasksOf(taskMatches)
    {
      tasks := [];
      var i := 0;
      while i < |taskMatches|
        invariant 0 <= i <= |taskMatches|
        invariant tasks == TasksOf(taskMatches)[..i]
      {
        var taskText := taskMatches[i];
        var isBonus := BonusText <= taskText;
        TasksOfNext(taskMatches, i);
        tasks := tasks + [Task(taskText, isBonus)];
        i := i + 1;
      }
      assert TasksOf(taskMatches)[..i] == TasksOf(taskMatches);
    }
  }
}
