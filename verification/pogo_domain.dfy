/**
 * The mega-evolution arithmetic of the example extension
 * (example/my-ext/pogo/domain-utils.ts): the level a mega count reaches, the
 * counts each level requires, the days and milliseconds a level waits between
 * mega evolutions, and the next deadline. Times are integer milliseconds.
 */
module PogoDomain {

  /** One day in milliseconds. */
  const DayMs := 24 * 60 * 60 * 1000

  /** MegaRequirements: the mega count each level starts at. */
  const MegaRequirements: map<int, int> := map[1 := 1, 2 := 7, 3 := 30]

  /** MegaWaitDays: the days a level waits between mega evolutions. */
  const MegaWaitDays: map<int, int> := map[1 := 7, 2 := 5, 3 := 3]

  /** MegaWaitTime: the same waits in milliseconds. */
  const MegaWaitTime: map<int, int> := map[1 := 7 * 24 * 60 * 60 * 1000, 2 := 5 * 24 * 60 * 60 * 1000, 3 := 3 * 24 * 60 * 60 * 1000]

  /** megaLevelFromCount: the highest level whose requirement the count reaches, 0 below all of them. */
  function MegaLevelFromCount(count: int): (level: int)
    ensures 0 <= level <= 3
    ensures level == 0 <==> count < MegaRequirements[1]
    ensures level > 0 ==> MegaRequirements[level] <= count
    ensures level < 3 ==> count < MegaRequirements[level + 1]
  {
    if count >= 30 then 3
    else if count >= 7 then 2
    else if count >= 1 then 1
    else 0
  }

  /** A higher count never gives a lower level. */
  lemma LevelMonotone(a: int, b: int)
    requires a <= b
    ensures MegaLevelFromCount(a) <= MegaLevelFromCount(b)
  {
  }

  /** Each level's requirement is exactly where that level begins. */
  lemma RequirementsReachTheirLevel(k: int)
    requires k in MegaRequirements
    ensures MegaLevelFromCount(MegaRequirements[k]) == k
    ensures MegaLevelFromCount(MegaRequirements[k] - 1) == k - 1
  {
  }

  /** The wait in milliseconds is the wait in days, level by level. */
  lemma WaitTimeIsDays(k: int)
    ensures k in MegaWaitTime <==> k in MegaWaitDays
    ensures k in MegaWaitDays ==> MegaWaitTime[k] == MegaWaitDays[k] * DayMs
  {
  }

  /** `MegaWaitTime[level] ?? 0`: level 0 has no entry and waits nothing. */
  function WaitFor(level: int): (ms: int)
    ensures ms >= 0
    ensures level in MegaWaitTime ==> ms == MegaWaitTime[level]
    ensures level !in MegaWaitTime ==> ms == 0
  {
    if level in MegaWaitTime then MegaWaitTime[level] else 0
  }

  /** nextMegaDeadline: the last mega evolution plus the wait of the count's level. */
  function NextMegaDeadline(count: int, lastMega: int): (deadline: int)
    ensures deadline >= lastMega
    ensures count < 1 <==> deadline == lastMega
  {
    lastMega + WaitFor(MegaLevelFromCount(count))
  }

  /** More mega evolutions never lengthen the wait: the deadline does not move later as the count grows. */
  lemma DeadlineShrinksWithCount(a: int, b: int, lastMega: int)
    requires 1 <= a <= b
    ensures NextMegaDeadline(b, lastMega) <= NextMegaDeadline(a, lastMega)
  {
  }

  /** The deadline is the last mega evolution plus whole days: 7, 5 or 3 of them for levels 1, 2 and 3. */
  lemma DeadlineInDays(count: int, lastMega: int)
    requires count >= 1
    ensures var level := MegaLevelFromCount(count);
      NextMegaDeadline(count, lastMega) == lastMega + MegaWaitDays[level] * DayMs
  {
  }
}
