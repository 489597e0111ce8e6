# 100-day tracker generator: parser and HTML renderer

This project models the core of `generate_tracker.py`. That script reads a
markdown study plan and turns it into an HTML progress tracker.

- **`MarkdownParser`** splits the plan on `## WEEK n:` lines, and then each
  week on `**💥 MACHINE MODE: DAY n` markers.
- **Week header:** the first line of a week gives its title and, when a
  `(…)` group follows, its date range.
- **Day header:** the first line of a day gives its date and title, from the
  text after `– `. A day whose header has no `– …` is dropped.
- **`🎯 **DSA: …**` block:** each match of `* LC n: title`, which may start
  at any `* ` of a line and runs to the line's end, becomes a `Problem`.
  The problem's difficulty comes from two fixed number lists, and its link is
  `https://leetcode.com/problems/<slug>/`. An optional `📌 Goal: …` line gives
  the goal.
- **`🧠 **SYSTEM DESIGN: …**` block:** each match of `* …` becomes a `Task`.
  A match starts at the first `* ` of a line, wherever it sits, and runs to
  the line's end, so `**Note** text` gives the task `text`. A task is a bonus
  exactly when its text starts with `Bonus:`.
- **`HTMLGenerator`** renders the records:
  - one `<li class="problem-item">` entry per problem;
  - one `<li class="task-item">` entry per task;
  - one day fragment per day and one week fragment per week, all in record
    order.
  - The weeks' text replaces the template's single `{{WEEKS_CONTENT}}`
    placeholder.

## Layout

- `pystr.dfy`: modules `Options` and `PyStr`.
  - `Options` has `Option`, `Somes` and `Map`.
  - `PyStr` models the Python string operations the script uses: `strip`,
    `lower`, `title`, `split(sep, 1)`, `lines[0]`, `int`, `str` and
    `replace`.
- `patterns.dfy`, module `Patterns`, covers the script's fixed regular
  expressions, each emulated exactly.
  - Each pattern is a matcher on a suffix of the text. `re.search` becomes
    the first position where the matcher succeeds, and `re.findall` a left
    to right scan.
  - `re.split` gives the pieces between non-overlapping markers. The
    MULTILINE `^` is a flag saying whether the position starts a line.
  - This module also has the lazy and greedy groups of the title, header and
    block patterns, with `.` stopping at a newline except under DOTALL.
- `records.dfy`, module `Records`: the dataclasses `Problem`, `Task`, `Day`
  and `Week`.
- `parser.dfy`, module `Parser`: a specification function for each parser
  step, their properties, and the class `MarkdownParser`.
  - `Parse` appends to the `weeks` field.
  - Its loops are static methods, each proved equal to the function that
    specifies it.
- `render.dfy`, module `Render`: the fragment functions, the template
  replacement, and the class `HTMLGenerator`, whose three loop methods are
  proved equal to those functions.
  - The fixed text between the interpolated fields is a `Markup` record.
    `SourceMarkup` holds it exactly as the script writes it, and the
    generator's constructor installs it.
  - The ordering and replacement results therefore hold for any fixed text.

## Where the code differs from what one might expect (the model follows the code)

- **Day numbers:** one might expect days to be numbered
  `(week-1)*7 + position`, or by the `DAY n` of their marker. The code takes
  `int` of the digits after `DAY ` on the day's first line, and uses 0 when
  there are none. That first line follows the split-off marker, so the number
  is usually 0.
  - As a result, several days share the date-input id `day0-date`.
  - `DateInputIdInjective` shows that ids clash exactly when day numbers are
    equal.
- **Empty weeks:** a week with no parsed days is kept, not dropped. The
  `if week:` test at line 61 is always true.
- **When a day is dropped:** it happens when its header line has no `– `
  followed by a character. A missing `DAY n` only makes the number 0.
- **LC 42:** it is in the hard list, so it is `hard`, not `medium`.
- **Other bullets:** only `* LC n: t` matches in a DSA block become
  problems. A bullet line whose text does not open with `LC ` becomes nothing
  (`BulletWithoutLc`), with no `task` placeholder difficulty.
- **Goal line:** the goal line is not removed from the items. Only the `📌`
  marker is recognised.
- **Difficulty:** it comes from the two membership lists only, with no
  numeric thresholds.

## Model

| member | source | states |
|---|---|---|
| Parser.MarkdownParser.constructor | generate_tracker.py:49-51 | The parser holds the given text and starts with no weeks. |
| Parser.MarkdownParser.Parse | generate_tracker.py:53-64 | `weeks` becomes the old weeks followed by `ParsedWeeks(content)`, and the call returns the new `weeks`. |
| Parser.ParsedWeeks | generate_tracker.py:57-62 | There is one week per `^## WEEK n:` marker, in order, and the k-th has number k+1. |
| Patterns.SplitCount | generate_tracker.py:57 | `re.split` gives one more piece than there are markers. |
| Parser.WeekSegments | generate_tracker.py:57 | There are as many week sections as `^## WEEK n:` markers. |
| Patterns.Split | generate_tracker.py:57 | `re.split` gives at least one piece, and the first piece is a prefix of the text. |
| Patterns.SplitPreamble | generate_tracker.py:57 | Text before the first marker, in which no marker starts, only lengthens the first piece; the later pieces are those of the rest. |
| Patterns.SplitAtFirst | generate_tracker.py:57 | With the leftmost marker at `p`, the first piece is the text before `p`, and the other pieces are the split of the text after that marker's match. |
| Patterns.SplitWithoutMarker | generate_tracker.py:57 | A text in which no marker starts is split into the one piece that is the whole text. |
| Patterns.WeekMarkerLineEnd | generate_tracker.py:57 | A `## WEEK n:` match never crosses a newline: what follows a line does not change whether the line opens with a marker. |
| Parser.PreambleIgnored | generate_tracker.py:57-62 | A preamble made of whole lines, none of which opens with a `## WEEK n:` marker, gives the same weeks as the text without it. |
| Patterns.MarkersDoNotOverlap | generate_tracker.py:57 | No marker starts inside another marker's match. |
| Patterns.DayPiecesStartAfterNumber | generate_tracker.py:81 | `DAY \d+` takes the whole digit run: no piece after a day marker starts with a digit. |
| Patterns.MarkerCountSkips | generate_tracker.py:57 | Restarting the scan inside a marker's match finds the same later markers. |
| Parser.MarkdownParser.ParseWeek | generate_tracker.py:66-89 | The method returns `WeekOf(weekNum, text)`: at most one day per day marker, and, when every day segment has a `– …` header, exactly one day per marker, the k-th built from the k-th segment. |
| Parser.WeekOf | generate_tracker.py:66-89 | The week carries the number it was given, and has at most one day per `**💥 MACHINE MODE: DAY n` marker. |
| Parser.DaySegments | generate_tracker.py:81 | There are as many day sections as day markers. |
| Parser.WeekDaysParsed | generate_tracker.py:81-89 | When every day segment has a `– …` header, the week has one day per day marker, and the k-th day is that of the k-th segment. |
| Parser.TitleAndRange | generate_tracker.py:71-78 | No contract of its own. `TitleRangeParsed` and `TitleFallback` state its results. |
| Parser.TitleRangeParsed | generate_tracker.py:72-75 | The line `t (r)`, with no `(` in `t` and no `)` in `r`, gives the title `t` and the range `r`, both stripped. |
| Parser.WeekTitleParsed | generate_tracker.py:68-75 | A week whose text opens, after blank space, with the line `t (r)` gets the stripped `t` as title and the stripped `r` as date range. |
| Parser.HeaderLineOf | generate_tracker.py:68-71 | After leading blank space, the first line of the stripped text is the header line. |
| Patterns.Search | generate_tracker.py:72 | No contract of its own: the first position where the matcher succeeds. `SearchFirst` states its result. |
| Patterns.SearchFirst | generate_tracker.py:72 | When the matcher fails at every position before `p` and succeeds at `p`, the search gives the match at `p`. |
| Patterns.TitleAt | generate_tracker.py:72 | No contract of its own. `TitleSearchIff`, `TitleSearchHasParens` and `TitleSearchFinds` state when it matches. |
| Patterns.TitleSearchIff | generate_tracker.py:72 | `(.+?)\s*\((.+?)\)` matches a line exactly when the line has a `(` after its first character and a `)` at least two places later. |
| Parser.TitleFallback | generate_tracker.py:71-78 | When the line has no such group, the title is the whole line and the range is empty. |
| Patterns.TitleSearchHasParens | generate_tracker.py:72 | A successful title match implies the parenthesised group exists. |
| Patterns.TitleSearchFinds | generate_tracker.py:72 | A line with the parenthesised group is matched. |
| Parser.MarkdownParser.ParseDays | generate_tracker.py:83-87 | The loop keeps exactly the days that `_parse_day` returns, in order: `KeptDays(daySections)`. |
| Parser.KeptDays | generate_tracker.py:83-87 | There are no more days than segments. `KeptDaysAppend`, `KeptDaysAll` and `KeptDaysNone` state which days are kept. |
| Parser.KeptDaysAppend | generate_tracker.py:83-87 | Keeping days segment by segment distributes over splitting the segment list. |
| Parser.KeptDaysAll | generate_tracker.py:83-87 | When every segment parses, there is one day per segment, and the k-th day is the k-th segment's. |
| Parser.KeptDaysNone | generate_tracker.py:83-87 | When no segment parses, the week has no days. |
| Parser.MarkdownParser.ParseDay | generate_tracker.py:91-131 | The method returns `DayOf(text)`. |
| Parser.DayOf | generate_tracker.py:91-131 | There is no day exactly when the header line has no `– …` match. |
| Parser.DayDropped | generate_tracker.py:96-99 | A day is dropped exactly when no `– ` is followed, on the header line, by at least one character. |
| Patterns.DashAt | generate_tracker.py:97 | A `– (.+?)` match yields a non-empty group that follows `– ` directly and, on a line, ends at the first `**` after its first character or at the line's end. |
| Patterns.DashAtInfo | generate_tracker.py:97 | `– info` followed by `**` or the line's end, with no `**` inside `info` after its first character, gives the group `info`. |
| Patterns.DashSearchInfo | generate_tracker.py:97 | On a line whose first `– ` opens such an `info`, the search gives `info`. |
| Parser.DayHeaderParsed | generate_tracker.py:96-110 | For such a header line, the day is kept, and its date and title are those of splitting the stripped `info` on `: `. |
| Patterns.DashSearchIff | generate_tracker.py:97 | `– (.+?)(?:\*\*\|$)` matches a line exactly when some `– ` has a character after it on that line. |
| Parser.HeaderLine | generate_tracker.py:93-96 | The header line holds no newline. |
| Parser.DateAndTitle | generate_tracker.py:104-110 | No contract of its own. `DateAndTitleSplit` and `DateAndTitleNoSeparator` state its results. |
| Parser.DateAndTitleSplit | generate_tracker.py:104-107 | The date is the stripped text before the first `: `, and the title the stripped text after it. |
| Parser.DateAndTitleNoSeparator | generate_tracker.py:108-110 | Without `: `, the date is the whole text and the title is empty. |
| Parser.DayNumberOf | generate_tracker.py:113-114 | No contract of its own. `DayNumberFound` and `DayNumberDefault` state its results. |
| Parser.DayNumberFound | generate_tracker.py:113-114 | A header line whose first `DAY ` is followed by the digit run `d` has the day number `int(d)`. |
| Patterns.DayNumberAtDigits | generate_tracker.py:113 | `DAY (\d+)` at `DAY ` followed by a digit run takes the whole run. |
| Parser.DayNumberDefault | generate_tracker.py:113-114 | Without `DAY ` on the header line, the day number is 0. |
| Patterns.DayNumberAt | generate_tracker.py:113 | A `DAY (\d+)` match yields a non-empty digit run right after `DAY `. |
| Parser.MarkdownParser.ParseDsaSection | generate_tracker.py:133-157 | The method returns `DsaSection(text)`. |
| Parser.DsaSection | generate_tracker.py:133-157 | No contract of its own. `MissingDsaBlock` and `DsaBlockParsed` state its results. |
| Patterns.SectionAt | generate_tracker.py:135 | No contract of its own. `SectionAtShape` states what a match is. |
| Parser.MissingDsaBlock | generate_tracker.py:135-137 | Without the DSA header, the block is `("", [], "")`. |
| Parser.DsaBlockParsed | generate_tracker.py:135-147 | The shape `🎯 **DSA: title**` newline, then a body, then either `🧠` or the end of the text, gives the stripped title and the problems and goal of the stripped body. |
| Patterns.DsaPastPreamble | generate_tracker.py:135 | Text before the block that lacks the header's first character does not change the match. |
| Patterns.SectionAtShape | generate_tracker.py:135 | A block match has: the header; a title with no `**` newline inside; then `**` newline; then the lazily shortest body before the stop text, or the end. |
| Parser.MarkdownParser.ProblemsFromMatches | generate_tracker.py:146-150 | The loop builds one `Problem` per match, in order: `ProblemsOf(problemMatches)`. |
| Parser.ProblemsOf | generate_tracker.py:147-150 | One problem per match, in order: the k-th has the k-th number and title, `GuessDifficulty(int(number))` and the link `https://leetcode.com/problems/<slug>/`. |
| Parser.ProblemLine | generate_tracker.py:146-150 | The line `* LC n: title` gives exactly one problem, with the title, `GuessDifficulty(int(n))` and `https://leetcode.com/problems/<slug>/`. |
| Parser.ProblemLines | generate_tracker.py:146 | The problems of a block are those of its first line followed by those of the rest. |
| Parser.ProblemsOfAppend | generate_tracker.py:147-150 | Building problems distributes over concatenating the lists of matches. |
| Patterns.FindAllLcLines | generate_tracker.py:146 | `findall` on `line + "\n" + rest` gives the line's matches followed by the rest's. |
| Patterns.LcLine | generate_tracker.py:146 | A `* LC n: title` line gives exactly the match `(n, title)`. |
| Patterns.LcAt | generate_tracker.py:146 | An LC match has a non-empty digit string and a non-empty one-line title, and its length is that of `* LC `, the digits, `: ` and the title. |
| Patterns.BulletWithoutLc | generate_tracker.py:146 | A `* text` line whose text does not open with `LC ` gives no LC match. |
| Patterns.NoStarNoItems | generate_tracker.py:146 | A line without `*` gives no LC match and no bullet match. |
| Patterns.FindAllLc | generate_tracker.py:146 | Every match has a non-empty digit string and a non-empty title with no newline. |
| Parser.GoalOf | generate_tracker.py:153-155 | No contract of its own. `GoalFound` and `GoalMissing` state its results. |
| Parser.GoalFound | generate_tracker.py:153-155 | `📌 Goal: g` with the line ending after `g` gives the stripped `g`. |
| Parser.GoalMissing | generate_tracker.py:153-155 | Without `📌 Goal: `, the goal is empty. |
| Patterns.GoalAt | generate_tracker.py:153 | A goal match is the rest of the line, non-empty, after `📌 Goal: `. |
| Parser.MarkdownParser.ParseSystemDesignSection | generate_tracker.py:159-176 | The method returns `SystemDesignSection(text)`. |
| Parser.SystemDesignSection | generate_tracker.py:159-176 | No contract of its own. `MissingSystemDesignBlock` and `SystemDesignBlockParsed` state its results. |
| Parser.MissingSystemDesignBlock | generate_tracker.py:161-163 | Without the SYSTEM DESIGN header, the block is `("", [])`. |
| Parser.SystemDesignBlockParsed | generate_tracker.py:161-171 | A block laid out as header, title, `**` newline, a body without `---`, then `---` or the end, gives the stripped title and the tasks of the stripped body. |
| Patterns.SystemDesignPastPreamble | generate_tracker.py:161 | Text before the block that lacks the header's first character does not change the match. |
| Parser.MarkdownParser.TasksFromMatches | generate_tracker.py:171-174 | The loop builds one `Task` per bullet, in order: `TasksOf`. |
| Parser.TasksOf | generate_tracker.py:172-174 | One task per bullet, in order: the k-th has the k-th text, and is a bonus iff that text starts with `Bonus:`. |
| Parser.TaskLine | generate_tracker.py:171-174 | The line `* text` gives exactly one task, with the text, whose `isBonus` holds iff the text starts with `Bonus:`. |
| Parser.TaskLines | generate_tracker.py:171 | The tasks of a block are those of its first line followed by those of the rest. |
| Parser.TasksOfAppend | generate_tracker.py:172-174 | Building tasks distributes over concatenating the bullet lists. |
| Patterns.FindAllBulletsLines | generate_tracker.py:171 | `findall(r'\* (.+)')` works line by line. |
| Patterns.BulletAt | generate_tracker.py:171 | A bullet match has a non-empty one-line text right after `* `. |
| Patterns.FindAllBullets | generate_tracker.py:171 | Every bullet match is non-empty and holds no newline. |
| Patterns.BulletLine | generate_tracker.py:171 | A `* text` line gives exactly the match `text`. |
| Parser.TitleToSlug | generate_tracker.py:178-183 | Every slug is lower-case word characters and single hyphens, with no hyphen at either end. |
| Parser.SlugIdempotent | generate_tracker.py:178-183 | Slugging a slug changes nothing. |
| Parser.SlugFixpoint | generate_tracker.py:178-183 | Any string of slug shape is its own slug. |
| Parser.SlugKeepsWordChars | generate_tracker.py:178-183 | The slug keeps exactly the word characters of the lower-cased title, in order: only separators are removed or rewritten. |
| Parser.GuessDifficulty | generate_tracker.py:185-192 | The result is `easy`, `medium` or `hard`. It is `easy` iff the number is in the easy list, `hard` iff in the hard list, and `medium` iff in neither. |
| Parser.DifficultyListsDisjoint | generate_tracker.py:187-190 | No number is in both lists. |
| PyStr.Strip | generate_tracker.py:68 | `strip()` leaves no whitespace at either end. |
| PyStr.StripInfix | generate_tracker.py:68 | The stripped text is a slice of the input with only whitespace around it. |
| PyStr.StripTrailingSpaces | generate_tracker.py:74 | Whitespace appended to a text does not change its `strip()`. |
| PyStr.Lower | generate_tracker.py:180 | `lower()` keeps the length, maps each upper-case letter to its lower-case letter (32 code points on), and changes nothing else. |
| PyStr.StripChar | generate_tracker.py:183 | `strip('-')` leaves no `-` at either end, and changes nothing when there is none. |
| PyStr.StripCharInfix | generate_tracker.py:183 | `strip('-')` is a slice of the input with only `-` before and after it. |
| PyStr.SplitOnce | generate_tracker.py:104 | `split(': ', 1)` splits at the first occurrence of the separator, and returns nothing when there is none. |
| PyStr.NatToStringRoundTrip | generate_tracker.py:220-221 | `int(str(n)) == n`. |
| PyStr.NatToString | generate_tracker.py:220 | `str(n)` is a non-empty digit string with no leading zero. |
| PyStr.Title | generate_tracker.py:240 | `title()` upper-cases a letter that does not follow a letter, lower-cases one that does, and keeps everything else. |
| PyStr.TitleFromChars | generate_tracker.py:240 | Each character's case depends only on whether the character before it is a letter. |
| PyStr.TitleOfLowerWord | generate_tracker.py:240 | A lower-case word becomes its first letter in upper case followed by the rest. |
| PyStr.ReplaceAll | generate_tracker.py:209 | No contract of its own. `ReplaceAllSingle` and `ReplaceAllAbsent` state its results. |
| PyStr.ReplaceAllSingle | generate_tracker.py:209 | `replace` on `a + pat + b`, where `pat` occurs only at that spot, gives `a + rep + b`. |
| PyStr.ReplaceAllAbsent | generate_tracker.py:209 | `replace` changes nothing where the pattern does not occur. |
| Render.HTMLGenerator.constructor | generate_tracker.py:195-196 | The generator holds the weeks and the fixed text of the script's fragments. |
| Render.HTMLGenerator.GenerateHtml | generate_tracker.py:198-211 | The page is the template text before the placeholder, then one week fragment per week in order, then the text after it. |
| Render.WeeksContent | generate_tracker.py:204-206 | No contract of its own. `ParsedWeeksInOrder` and `GenerateHtml` state where each week's fragment goes. |
| Render.TemplateFilled | generate_tracker.py:209 | Replacing the one placeholder of `prefix + "{{WEEKS_CONTENT}}" + suffix` puts the content exactly in its place. |
| Render.PlaceholderOnlyOnce | generate_tracker.py:209 | No placeholder occurrence starts before the real one: the placeholder cannot overlap itself. |
| Render.HTMLGenerator.GenerateWeekHtml | generate_tracker.py:213-230 | The method returns the week fragment around one day fragment per day, in order. |
| Render.WeekHtml | generate_tracker.py:213-230 | No contract of its own. `GenerateWeekHtml` states it. |
| Render.HTMLGenerator.GenerateDayHtml | generate_tracker.py:232-280 | The method returns the day fragment around one problem entry per problem and one task entry per task, each list in order. |
| Render.DayHtml | generate_tracker.py:232-280 | No contract of its own. `GenerateDayHtml` states it. |
| Render.ProblemItem | generate_tracker.py:236-241 | No contract of its own: the fixed text around the url, number, title, difficulty and `title()` badge. `DifficultyBadge` states the badge. |
| Render.TaskItem | generate_tracker.py:245-249 | No contract of its own: the fixed text around the task description. |
| Render.ConcatMapNext | generate_tracker.py:204-206 | Each `html += f(x)` step extends the text by the next element's fragment. |
| Render.ConcatMapAt | generate_tracker.py:204-206 | The k-th record's fragment sits between the fragments of the records before it and those after it. |
| Render.ConcatMapAppend | generate_tracker.py:204-206 | The fragments of two record lists are those of the first, then those of the second. |
| Render.ParsedWeeksInOrder | generate_tracker.py:204-206 | On a parsed plan, the k-th week fragment sits between the earlier and the later weeks' fragments, and has the key `week<k+1>`. |
| Render.WeekKeyInjective | generate_tracker.py:221 | Two weeks share a `data-week` key iff they have the same number. |
| Render.ParsedWeekKeysDistinct | generate_tracker.py:221 | The weeks of a parsed plan have pairwise different `data-week` keys. |
| Render.DateInputIdInjective | generate_tracker.py:276-277 | Two days share a date-input id iff they have the same number. |
| Render.DifficultyBadge | generate_tracker.py:240 | The badge of a parsed difficulty is `Easy`, `Hard` or `Medium`, by the same lists. |

## Left out

- `_get_html_template` (the page text, its CSS and its JavaScript) is not
  modelled. The template is taken as the text before and after its one
  placeholder.
- Render.HTMLGenerator.GenerateHtml: the method requires both sides of the
  template to be free of the placeholder, which holds for the script's own
  template.
- The script's `main` (reading the plan file, writing the HTML, the messages
  it prints) and the `json` and `pathlib` imports are I/O, and are not
  modelled.
- Regular expressions in general are not modelled. Only the script's fixed
  patterns are emulated, each by its own matcher.
- PyStr.Lower, PyStr.Title: these change ASCII letters only. Python also
  changes the case of non-ASCII letters.
- Parser.RemoveDisallowed, Parser.TitleToSlug: `\w` is ASCII only. Python's
  `str` patterns also accept non-ASCII letters, so Python keeps `é` in a slug
  where the model drops it.
- Patterns.DigitRun, Patterns.MarkerLen, Patterns.DayNumberAt, Patterns.FindAllLc:
  `\d` is ASCII only. Python's `str` patterns also accept non-ASCII digits.
- Render.HTMLGenerator.GenerateDayHtml: it states one entry per problem and
  per task as the structure of the text: a concatenation of one fragment per
  record, in order. It makes no claim about the number of
  `class="problem-checkbox"` occurrences in the output, because titles and
  descriptions are interpolated unescaped and may contain that text.
- Parser.MarkdownParser.Parse: Python returns the `self.weeks` list itself,
  so the caller and the parser share one list. The model returns the value of
  `weeks`, so later changes through one are not seen through the other.
- The `if week:` and `if day:` truthiness conditions are not modelled separately.
  A `Week` object is always true, so every week is appended. A day is kept
  exactly when `_parse_day` returns one.
