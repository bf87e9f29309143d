/**
 * The congestion classifier of the dashboard: a speed in km/h is mapped to one
 * of three ordinal labels by two fixed thresholds.
 */
module Congestion {

  /** The values of the derived "Congestion Level" column. */
  datatype Level = Low | Medium | High

  /** At or above this speed traffic counts as free-flowing. */
  const LowThreshold: real := 45.0
  /** At or above this speed (and below LowThreshold) congestion is moderate. */
  const MediumThreshold: real := 30.0

  /**
   * get_congestion: total over every speed, negative and extreme ones
   * included; there is no error path.
   */
  function GetCongestion(speed: real): (level: Level)
    ensures level == Low <==> speed >= LowThreshold
    ensures level == Medium <==> MediumThreshold <= speed < LowThreshold
    ensures level == High <==> speed < MediumThreshold
  {
    if speed >= LowThreshold then Low
    else if speed >= MediumThreshold then Medium
    else High
  }

  /** The texts the column can hold. */
  const Labels: set<string> := {"Low", "Medium", "High"}

  /** The text the dashboard writes into the column for a level. */
  function Name(level: Level): (name: string)
    ensures name in Labels
  {
    match level
    case Low => "Low"
    case Medium => "Medium"
    case High => "High"
  }

  /** Reads a label back: the inverse of Name. */
  function LevelOf(name: string): (level: Level)
    requires name in Labels
    ensures Name(level) == name
  {
    if name == "Low" then Low else if name == "Medium" then Medium else High
  }

  /** How congested a level is: Low < Medium < High. */
  function Severity(level: Level): (rank: nat)
    ensures rank < 3
  {
    match level
    case Low => 0
    case Medium => 1
    case High => 2
  }

  /** Distinct levels are written as distinct texts, so counting texts counts levels. */
  lemma NameInjective(a: Level, b: Level)
    ensures Name(a) == Name(b) <==> a == b
  {
  }

  /** The three texts are distinct. */
  lemma LabelsSize()
    ensures |Labels| == 3
  {
  }

  /** The boundary speeds fall on the less congested side. */
  lemma Boundaries()
    ensures GetCongestion(45.0) == Low
    ensures GetCongestion(30.0) == Medium
    ensures GetCongestion(29.999) == High
    ensures GetCongestion(-5.0) == High
  {
  }

  /** A faster speed is never labelled more congested than a slower one. */
  lemma Monotone(slower: real, faster: real)
    requires slower <= faster
    ensures Severity(GetCongestion(faster)) <= Severity(GetCongestion(slower))
  {
  }
}
