/**
 * The HTML generator: one fragment per problem, task, day and week, nested
 * and concatenated in the order of the parsed records, and spliced into the
 * page template in place of its one placeholder. Field values are
 * interpolated as they are, without escaping.
 */
module Render {
  import opened PyStr
  import opened Records
  import opened Parser

  // ---------------------------------------------------------------------------
  // Fragments in record order

  /**
   * The fragments of `xs` under `f` with markup `m`, one per element, in
   * order: what each `html += f(x)` loop builds.
   */
  function ConcatMap<M, T>(f: (M, T) -> seq<char>, m: M, xs: seq<T>): seq<char>
    decreases |xs|
  {
    if xs == [] then [] else ConcatMap(f, m, xs[..|xs| - 1]) + f(m, xs[|xs| - 1])
  }

  /** A loop that has emitted the fragments of `xs[..i]` emits the fragment of `xs[i]` next. */
  lemma ConcatMapNext<M, T>(f: (M, T) -> seq<char>, m: M, xs: seq<T>, i: nat)
    requires i < |xs|
    ensures ConcatMap(f, m, xs[..i + 1]) == ConcatMap(f, m, xs[..i]) + f(m, xs[i])
  {
    assert xs[..i + 1][..i] == xs[..i];
  }

  /** The fragments of two lists are those of the first followed by those of the second. */
  lemma {:induction false} ConcatMapAppend<M, T>(f: (M, T) -> seq<char>, m: M, a: seq<T>, b: seq<T>)
    ensures ConcatMap(f, m, a + b) == ConcatMap(f, m, a) + ConcatMap(f, m, b)
    decreases |b|
  {
    if b == [] {
      assert a + b == a;
    } else {
      var init := b[..|b| - 1];
      assert (a + b)[..|a + b| - 1] == a + init;
      assert (a + b)[|a + b| - 1] == b[|b| - 1];
      ConcatMapAppend(f, m, a, init);
      AppendAssoc(ConcatMap(f, m, a), ConcatMap(f, m, init), f(m, b[|b| - 1]));
    }
  }

  /** A one-element list has exactly that element's fragment. */
  lemma ConcatMapSingle<M, T>(f: (M, T) -> seq<char>, m: M, x: T)
    ensures ConcatMap(f, m, [x]) == f(m, x)
  {
    assert [x][..0] == [];
  }

  /** The fragment of an element follows those of the elements before it and precedes those after it. */
  lemma {:induction false} ConcatMapSplit<M, T>(f: (M, T) -> seq<char>, m: M, before: seq<T>, x: T, after: seq<T>)
    ensures ConcatMap(f, m, before + [x] + after) == ConcatMap(f, m, before) + f(m, x) + ConcatMap(f, m, after)
  {
    ConcatMapAppend(f, m, before + [x], after);
    ConcatMapAppend(f, m, before, [x]);
    ConcatMapSingle(f, m, x);
  }

  /** The fragment of the `k`-th element sits between those of the elements before and after it. */
  lemma {:induction false} ConcatMapAt<M, T>(f: (M, T) -> seq<char>, m: M, xs: seq<T>, k: nat)
    requires k < |xs|
    ensures ConcatMap(f, m, xs) == ConcatMap(f, m, xs[..k]) + f(m, xs[k]) + ConcatMap(f, m, xs[k + 1..])
  {
    assert xs == xs[..k] + [xs[k]] + xs[k + 1..];
    ConcatMapSplit(f, m, xs[..k], xs[k], xs[k + 1..]);
  }

  // ---------------------------------------------------------------------------
  // The fixed text around the interpolated fields

  /**
   * The fixed text of the week, day, problem and task fragments, piece by
   * piece. The fragment functions take it as a parameter, so that what they
   * state about order and nesting holds whatever the text.
   */
  datatype Markup = Markup(
    weekCommentOpen: seq<char>,
    weekSectionOpen: seq<char>,
    weekHeaderOpen: seq<char>,
    weekRangeClose: seq<char>,
    weekClose: seq<char>,
    dayCommentOpen: seq<char>,
    dayHeaderOpen: seq<char>,
    dsaTitleOpen: seq<char>,
    listOpen: seq<char>,
    goalOpen: seq<char>,
    systemDesignTitleOpen: seq<char>,
    dateLabelOpen: seq<char>,
    dateInputOpen: seq<char>,
    dayClose: seq<char>,
    problemItemOpen: seq<char>,
    problemLinkMid: seq<char>,
    problemDifficultyOpen: seq<char>,
    problemItemClose: seq<char>,
    taskItemOpen: seq<char>,
    taskItemClose: seq<char>)

  /** The fixed text as `_generate_week_html` and `_generate_day_html` write it, character for character. */
  const SourceMarkup: Markup := Markup(
      "\n    <!-- WEEK ",
      " -->\n    <div class=\"week-section\" data-week=\"",
      "\">\n        <div class=\"week-header\" onclick=\"toggleWeek(this)\">\n            WEEK ",
      ")\n            <span class=\"collapse-icon\">\U{25BC}</span>\n        </div>\n        <div class=\"week-content\">\n",
      "\n        </div>\n    </div>\n",
      "\n            <!-- DAY ",
      " -->\n            <div class=\"day-section\">\n                <div class=\"day-header\" onclick=\"toggleDay(this)\">\n                    \U{1F4A5} DAY ",
      "\n                    <span class=\"collapse-icon\">\U{25BC}</span>\n                </div>\n                <div class=\"day-content\">\n                    <div class=\"section-grid\">\n                        <div class=\"dsa-section\">\n                            <div class=\"section-title\">\U{1F3AF} DSA: ",
      "</div>\n                            <ul class=\"problem-list\">",
      "\n                            </ul>\n                            <div class=\"goal-section\">\n                                <div class=\"goal-title\">\U{1F4CC} Goal:</div>\n                                <div>",
      "</div>\n                            </div>\n                        </div>\n                        <div class=\"system-design-section\">\n                            <div class=\"section-title\">\U{1F9E0} SYSTEM DESIGN: ",
      "\n                            </ul>\n                        </div>\n                    </div>\n                    <div class=\"date-completed\">\n                        <label for=\"",
      "\">\U{1F4C5} Date Completed:</label>\n                        <input type=\"date\" id=\"",
      "\" class=\"date-input\">\n                    </div>\n                </div>\n            </div>",
      "\n                                <li class=\"problem-item\">\n                                    <input type=\"checkbox\" class=\"problem-checkbox\" onchange=\"updateStats()\">\n                                    <a href=\"",
      "\" class=\"problem-link\" target=\"_blank\">LC ",
      "</a>\n                                    <span class=\"problem-difficulty ",
      "</span>\n                                </li>",
      "\n                                <li class=\"task-item\">\n                                    <input type=\"checkbox\" class=\"task-checkbox\" onchange=\"updateStats()\">\n                                    <span>",
      "</span>\n                                </li>")

  // ---------------------------------------------------------------------------
  // Problems and tasks

  /** The `<li class="problem-item">` entry of one problem: its link, its `LC n: title` label and its difficulty badge. */
  function ProblemItem(m: Markup, p: Problem): seq<char> {
    m.problemItemOpen + p.url + m.problemLinkMid + p.number + ": " + p.title
    + m.problemDifficultyOpen + p.difficulty + "\">" + Title(p.difficulty) + m.problemItemClose
  }

  /** The `<li class="task-item">` entry of one task. */
  function TaskItem(m: Markup, t: Task): seq<char> {
    m.taskItemOpen + t.description + m.taskItemClose
  }

  /** The badge text of a difficulty the parser assigns: `Easy`, `Hard` or `Medium`, by the same lists. */
  lemma DifficultyBadge(n: nat)
    ensures Title(GuessDifficulty(n))
            == if n in EasyNumbers then "Easy" else if n in HardNumbers then "Hard" else "Medium"
  {
    var d := GuessDifficulty(n);
    TitleOfLowerWord(d);
    if d == "easy" {
      assert [UpperChar('e')] + "asy" == "Easy";
    } else if d == "hard" {
      assert [UpperChar('h')] + "ard" == "Hard";
    } else {
      assert [UpperChar('m')] + "edium" == "Medium";
    }
  }

  // ---------------------------------------------------------------------------
  // Days

  /** The `id` of a day's date input, which its `<label for=...>` repeats: `day<n>-date`. */
  function DateInputId(d: Day): seq<char> {
    "day" + NatToString(d.number) + "-date"
  }

  /** Two days share a date-input id exactly when they have the same number. */
  lemma DateInputIdInjective(d1: Day, d2: Day)
    ensures DateInputId(d1) == DateInputId(d2) <==> d1.number == d2.number
  {
    var a, b := NatToString(d1.number), NatToString(d2.number);
    if DateInputId(d1) == DateInputId(d2) {
      assert |a| == |b|;
      assert a == DateInputId(d1)[3..3 + |a|];
      assert b == DateInputId(d2)[3..3 + |b|];
      NatToStringRoundTrip(d1.number);
      NatToStringRoundTrip(d2.number);
    }
  }

  /** The day fragment around its rendered problem and task lists. */
  function DayFragment(m: Markup, d: Day, problemsHtml: seq<char>, tasksHtml: seq<char>): seq<char> {
    m.dayCommentOpen + NatToString(d.number) + m.dayHeaderOpen + NatToString(d.number) + " - " + d.date + ": " + d.title
    + m.dsaTitleOpen + d.dsaTitle + m.listOpen + problemsHtml
    + m.goalOpen + d.dsaGoal + m.systemDesignTitleOpen + d.systemDesignTitle + m.listOpen + tasksHtml
    + m.dateLabelOpen + DateInputId(d) + m.dateInputOpen + DateInputId(d) + m.dayClose
  }

  /** `_generate_day_html`: one problem entry per problem and one task entry per task, in order. */
  function DayHtml(m: Markup, d: Day): seq<char> {
    DayFragment(m, d, ConcatMap(ProblemItem, m, d.dsaProblems), ConcatMap(TaskItem, m, d.systemDesignTasks))
  }

  // ---------------------------------------------------------------------------
  // Weeks

  /** The `data-week` key of a week: `week<n>`. */
  function WeekKey(w: Week): seq<char> {
    "week" + NatToString(w.number)
  }

  /** Two weeks share a `data-week` key exactly when they have the same number. */
  lemma WeekKeyInjective(w1: Week, w2: Week)
    ensures WeekKey(w1) == WeekKey(w2) <==> w1.number == w2.number
  {
    var a, b := NatToString(w1.number), NatToString(w2.number);
    if WeekKey(w1) == WeekKey(w2) {
      assert a == WeekKey(w1)[4..];
      assert b == WeekKey(w2)[4..];
      NatToStringRoundTrip(w1.number);
      NatToStringRoundTrip(w2.number);
    }
  }

  /** The weeks of a parsed plan have pairwise different `data-week` keys. */
  lemma ParsedWeekKeysDistinct(text: seq<char>, i: nat, j: nat)
    requires i < j < |ParsedWeeks(text)|
    ensures WeekKey(ParsedWeeks(text)[i]) != WeekKey(ParsedWeeks(text)[j])
  {
    WeekKeyInjective(ParsedWeeks(text)[i], ParsedWeeks(text)[j]);
  }

  /** The week fragment around its rendered days. */
  function WeekFragment(m: Markup, w: Week, daysHtml: seq<char>): seq<char> {
    m.weekCommentOpen + NatToString(w.number) + ": " + w.title + m.weekSectionOpen + WeekKey(w)
    + m.weekHeaderOpen + NatToString(w.number) + ": " + w.title + " (" + w.dateRange + m.weekRangeClose
    + daysHtml + m.weekClose
  }

  /** `_generate_week_html`: one day fragment per day, in order. */
  function WeekHtml(m: Markup, w: Week): seq<char> {
    WeekFragment(m, w, ConcatMap(DayHtml, m, w.days))
  }

  /** The text that replaces the placeholder: one week fragment per week, in order. */
  function WeeksContent(m: Markup, ws: seq<Week>): seq<char> {
    ConcatMap(WeekHtml, m, ws)
  }

  /**
   * On a parsed plan, the page lists the week fragments in marker order: the
   * fragment of the `k`-th week sits between those of the weeks before and
   * after it, and carries the key `week<k+1>`.
   */
  lemma ParsedWeeksInOrder(m: Markup, text: seq<char>, k: nat)
    requires k < |ParsedWeeks(text)|
    ensures var ws := ParsedWeeks(text);
      WeeksContent(m, ws) == WeeksContent(m, ws[..k]) + WeekHtml(m, ws[k]) + WeeksContent(m, ws[k + 1..])
      && WeekKey(ws[k]) == "week" + NatToString(k + 1)
  {
    ConcatMapAt(WeekHtml, m, ParsedWeeks(text), k);
  }

  // ---------------------------------------------------------------------------
  // The template

  const Placeholder: seq<char> := "{{WEEKS_CONTENT}}"

  /** No occurrence of the placeholder starts anywhere in `s`. */
  predicate PlaceholderFree(s: seq<char>) {
    forall i :: 0 <= i < |s| ==> !(Placeholder <= s[i..])
  }

  /** Only the first two characters of the placeholder are `{`. */
  lemma PlaceholderBraces(j: nat)
    requires 2 <= j < |Placeholder|
    ensures Placeholder[j] != '{'
  {
  }

  /** No proper suffix of the placeholder is also a prefix of it, so two occurrences cannot overlap. */
  lemma PlaceholderUnbordered(l: nat)
    requires 0 < l < |Placeholder|
    ensures Placeholder[|Placeholder| - l..] != Placeholder[..l]
  {
    var n := |Placeholder|;
    if l == n - 1 {
      assert Placeholder[n - l..][1] == Placeholder[2] != Placeholder[1];
    } else {
      PlaceholderBraces(n - l);
      assert Placeholder[n - l..][0] == Placeholder[n - l] != Placeholder[0];
    }
  }

  /** Around a template's one placeholder, no occurrence starts in the text before it. */
  lemma PlaceholderOnlyOnce(prefix: seq<char>, suffix: seq<char>, i: nat)
    requires PlaceholderFree(prefix) && i < |prefix|
    ensures !(Placeholder <= (prefix + Placeholder + suffix)[i..])
  {
    var s := prefix + Placeholder + suffix;
    var n := |Placeholder|;
    if i + n <= |prefix| {
      assert s[i..][..n] == prefix[i..][..n];
      assert !(Placeholder <= prefix[i..]);
    } else if Placeholder <= s[i..] {
      var l := i + n - |prefix|;
      assert Placeholder[n - l..] == Placeholder[..l] by {
        assert Placeholder[n - l..] == s[|prefix|..i + n];
        assert Placeholder[..l] == s[|prefix|..|prefix| + l];
      }
      PlaceholderUnbordered(l);
    }
  }

  /** `template.replace("{{WEEKS_CONTENT}}", content)` on a template with one placeholder. */
  lemma TemplateFilled(prefix: seq<char>, suffix: seq<char>, content: seq<char>)
    requires PlaceholderFree(prefix) && PlaceholderFree(suffix)
    ensures ReplaceAll(prefix + Placeholder + suffix, Placeholder, content) == prefix + content + suffix
  {
    forall i | 0 <= i < |prefix| ensures !(Placeholder <= (prefix + Placeholder + suffix)[i..]) {
      PlaceholderOnlyOnce(prefix, suffix, i);
    }
    ReplaceAllSingle(prefix, Placeholder, suffix, content);
  }

  // ---------------------------------------------------------------------------
  // The generator object

  /**
   * `HTMLGenerator`: holds the parsed weeks and renders them with the
   * generator's fixed text. The page template is given as the text before
   * and after its placeholder.
   */
  class HTMLGenerator {
    const weeks: seq<Week>
    const markup: Markup

    constructor (weeks: seq<Week>)
      ensures this.weeks == weeks && markup == SourceMarkup
    {
      this.weeks := weeks;
      markup := SourceMarkup;
    }

    /** `generate_html`: the template with its placeholder replaced by one fragment per week, in order. */
    method GenerateHtml(prefix: seq<char>, suffix: seq<char>) returns (html: seq<char>)
      requires PlaceholderFree(prefix) && PlaceholderFree(suffix)
      ensures html == prefix + WeeksContent(markup, weeks) + suffix
    {
      var template := prefix + Placeholder + suffix;
      var weeksHtml := "";
      var i := 0;
      while i < |weeks|
        invariant 0 <= i <= |weeks|
        invariant weeksHtml == ConcatMap(WeekHtml, markup, weeks[..i])
      {
        var weekHtml := GenerateWeekHtml(weeks[i]);
        ConcatMapNext(WeekHtml, markup, weeks, i);
        weeksHtml := weeksHtml + weekHtml;
        i := i + 1;
      }
      assert weeks[..i] == weeks;
      html := ReplaceAll(template, Placeholder, weeksHtml);
      assert html == prefix + weeksHtml + suffix by {
        TemplateFilled(prefix, suffix, weeksHtml);
      }
    }

    /** `_generate_week_html`: the week fragment around one day fragment per day, in order. */
    method GenerateWeekHtml(week: Week) returns (html: seq<char>)
      ensures html == WeekHtml(markup, week)
    {
      var daysHtml := "";
      var i := 0;
      while i < |week.days|
        invariant 0 <= i <= |week.days|
        invariant daysHtml == ConcatMap(DayHtml, markup, week.days[..i])
      {
        var dayHtml := GenerateDayHtml(week.days[i]);
        ConcatMapNext(DayHtml, markup, week.days, i);
        daysHtml := daysHtml + dayHtml;
        i := i + 1;
      }
      assert week.days[..i] == week.days;
      html := WeekFragment(markup, week, daysHtml);
    }

    /** `_generate_day_html`: the day fragment around one entry per problem and one per task, in order. */
    method GenerateDayHtml(day: Day) returns (html: seq<char>)
      ensures html == DayHtml(markup, day)
    {
      var problemsHtml := "";
      var i := 0;
      while i < |day.dsaProblems|
        invariant 0 <= i <= |day.dsaProblems|
        invariant problemsHtml == ConcatMap(ProblemItem, markup, day.dsaProblems[..i])
      {
        ConcatMapNext(ProblemItem, markup, day.dsaProblems, i);
        problemsHtml := problemsHtml + ProblemItem(markup, day.dsaProblems[i]);
        i := i + 1;
      }
      assert day.dsaProblems[..i] == day.dsaProblems;
      var tasksHtml := "";
      var j := 0;
      while j < |day.systemDesignTasks|
        invariant 0 <= j <= |day.systemDesignTasks|
        invariant tasksHtml == ConcatMap(TaskItem, markup, day.systemDesignTasks[..j])
      {
        ConcatMapNext(TaskItem, markup, day.systemDesignTasks, j);
        tasksHtml := tasksHtml + TaskItem(markup, day.systemDesignTasks[j]);
        j := j + 1;
      }
      assert day.systemDesignTasks[..j] == day.systemDesignTasks;
      html := DayFragment(markup, day, problemsHtml, tasksHtml);
    }
  }
}
