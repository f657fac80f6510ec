/** The sentence lists per difficulty level and buildPool (script.js). */
module Pools {

  const EasyTexts: seq<string> := [
    "The quick brown fox jumps over the lazy dog.",
    "Java is fun. Learn typing fast.",
    "Practice makes perfect. Stay consistent.",
    "She always brings her lunch to school",
    "I enjoy reading books on quiet evenings",
    "The little boy kicked the red football",
    "They went shopping at the local market",
    "My sister loves playing the piano daily",
    "We should finish homework before watching TV",
    "He drinks coffee every morning before work",
    "The teacher explained the lesson very clearly",
    "Birds were flying high above the trees"
  ]

  const MediumTexts: seq<string> := [
    "Software development involves planning and testing.",
    "Focus on accuracy before aiming for speed.",
    "Applications rely on efficient algorithms."
  ]

  const HardTexts: seq<string> := [
    "Cybersecurity protects sensitive data from attacks.",
    "Distributed systems handle latency and failures.",
    "Machine learning models need regular tuning."
  ]

  /** A pool sentences can be drawn from: non-empty, of non-empty sentences. */
  predicate UsablePool(pool: seq<string>)
  {
    |pool| > 0 && forall i :: 0 <= i < |pool| ==> |pool[i]| > 0
  }

  /** buildPool: the list for the selected level; any value other than
      "Medium" or "Hard" falls back to the easy list. */
  function BuildPool(level: string): (pool: seq<string>)
    ensures UsablePool(pool)
    ensures pool == EasyTexts || pool == MediumTexts || pool == HardTexts
  {
    if level == "Medium" then MediumTexts
    else if level == "Hard" then HardTexts
    else EasyTexts
  }

  /** Which list each level value selects. */
  lemma BuildPoolByLevel(level: string)
    ensures BuildPool(level) == MediumTexts <==> level == "Medium"
    ensures BuildPool(level) == HardTexts <==> level == "Hard"
    ensures BuildPool(level) == EasyTexts <==> level != "Medium" && level != "Hard"
  {
    assert MediumTexts[0] != HardTexts[0] && MediumTexts != HardTexts;
    assert |EasyTexts| != |MediumTexts| && |EasyTexts| != |HardTexts|;
  }
}
