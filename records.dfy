/**
 * The records the parser produces and the generator renders: a plan is a
 * sequence of weeks, a week holds its days, and a day holds the LeetCode
 * problems of its DSA block and the tasks of its SYSTEM DESIGN block.
 */
module Records {
  /** One `* LC n: title` line: the digit string as written, the title, a difficulty label and a link. */
  datatype Problem = Problem(number: seq<char>, title: seq<char>, difficulty: seq<char>, url: seq<char>)

  /** One `* text` line of a SYSTEM DESIGN block. */
  datatype Task = Task(description: seq<char>, isBonus: bool)

  datatype Day = Day(
    number: nat,
    date: seq<char>,
    title: seq<char>,
    dsaTitle: seq<char>,
    dsaProblems: seq<Problem>,
    dsaGoal: seq<char>,
    systemDesignTitle: seq<char>,
    systemDesignTasks: seq<Task>)

  datatype Week = Week(number: nat, title: seq<char>, dateRange: seq<char>, days: seq<Day>)
}
