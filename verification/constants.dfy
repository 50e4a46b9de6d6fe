/**
 * The shared tables of the extension: the Spanish stop words, the five-level
 * mastery scale with its labels and encounter thresholds, and the threshold-based
 * mastery rule `calculateMastery`.
 */
module Constants {

  /**
   * Common Spanish function words, all lower-case: the 46 words of the source's set,
   * in its order, written as the union of short rows so that a proof about every
   * member splits into small cases.
   */
  const StopWordsEs: set<string> :=
    StopWordsRow1 + StopWordsRow2 + StopWordsRow3 + StopWordsRow4 + StopWordsRow5 + StopWordsRow6

  const StopWordsRow1: set<string> := {"a", "al", "algo", "con", "de", "del", "el", "en"}
  const StopWordsRow2: set<string> := {"es", "eso", "esta", "este", "esto", "hay", "la", "las"}
  const StopWordsRow3: set<string> := {"le", "les", "lo", "los", "me", "mi", "muy", "más"}
  const StopWordsRow4: set<string> := {"no", "nos", "o", "para", "pero", "por", "que", "qué"}
  const StopWordsRow5: set<string> := {"se", "si", "sin", "su", "sus", "sí", "te", "tu"}
  const StopWordsRow6: set<string> := {"tú", "un", "una", "y", "ya", "yo"}

  /** The mastery levels of the encounter-threshold scale. */
  const MasteryNew := 0
  const MasterySeen := 1
  const MasteryFamiliar := 2
  const MasteryLearned := 3
  const MasteryMastered := 4

  /** Display label of each mastery level, indexed by the level. */
  const MasteryLabels: seq<string> := ["New", "Seen", "Familiar", "Learned", "Mastered"]

  /** A lower bound on encounters; the last level has the unreachable bound `Infinity`. */
  datatype Threshold = AtLeast(n: nat) | Infinity

  /** Minimum encounter count of each mastery level, indexed by the level. */
  const MasteryThresholds: seq<Threshold> := [AtLeast(0), AtLeast(3), AtLeast(10), AtLeast(20), Infinity]

  /** `t <= encounters` in JavaScript's number order (`Infinity` exceeds every count). */
  predicate Reaches(encounters: int, t: Threshold) {
    t.AtLeast? && t.n <= encounters
  }

  /**
   * `calculateMastery`: a user mark gives the top level; otherwise the level is the
   * highest non-user level whose threshold the encounter count reaches.
   */
  function CalculateMastery(encounters: int, userMarkedLearned: bool): (level: nat)
    ensures level < |MasteryLabels| && level < |MasteryThresholds|
    ensures userMarkedLearned <==> level == MasteryMastered
    ensures !userMarkedLearned && encounters >= 0 ==>
              Reaches(encounters, MasteryThresholds[level])
              && !Reaches(encounters, MasteryThresholds[level + 1])
    ensures !userMarkedLearned && encounters < 0 ==> level == MasteryNew
  {
    if userMarkedLearned then MasteryMastered
    else if encounters >= 20 then MasteryLearned
    else if encounters >= 10 then MasteryFamiliar
    else if encounters >= 3 then MasterySeen
    else MasteryNew
  }

  /** More encounters never lower the computed level. */
  lemma CalculateMasteryMonotone(e1: int, e2: int, marked: bool)
    requires e1 <= e2
    ensures CalculateMastery(e1, marked) <= CalculateMastery(e2, marked)
  {
  }

  /** The thresholds strictly increase, so the level `CalculateMastery` picks is the largest one reached. */
  lemma CalculateMasteryIsLargestReached(encounters: int, i: nat)
    requires encounters >= 0
    requires i < MasteryMastered && Reaches(encounters, MasteryThresholds[i])
    ensures i <= CalculateMastery(encounters, false)
  {
  }

  /** There is exactly one label per mastery level, and no other. */
  lemma MasteryLabelsPerLevel()
    ensures |MasteryLabels| == MasteryMastered + 1
    ensures forall i, j :: 0 <= i < j < |MasteryLabels| ==> MasteryLabels[i] != MasteryLabels[j]
  {
  }
}
