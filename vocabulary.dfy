/** The fixed label vocabulary `facial_expression`: seven expression names and their class ids. */
module Vocabulary {

  const NUM_CLASSES: int := 7

  /** The label given to a directory whose name is not in the vocabulary. */
  const UNKNOWN_LABEL: int := -1

  /** The directory names that carry a label, in class-id order. */
  const EXPRESSIONS: seq<string> := ["Angry", "Happy", "Neutral", "Sad", "Surprise", "Fear", "Disgust"]

  /** facial_expression.get(name, -1): the class id of a label directory. */
  function LabelOf(name: string): (classId: int)
    ensures UNKNOWN_LABEL <= classId < NUM_CLASSES
  {
    if name == "Angry" then 0
    else if name == "Happy" then 1
    else if name == "Neutral" then 2
    else if name == "Sad" then 3
    else if name == "Surprise" then 4
    else if name == "Fear" then 5
    else if name == "Disgust" then 6
    else UNKNOWN_LABEL
  }

  /** A name gets the class id of its position in EXPRESSIONS, and only names outside it get -1. */
  lemma LabelOfMatchesExpressions(name: string)
    ensures LabelOf(name) == UNKNOWN_LABEL <==> name !in EXPRESSIONS
    ensures LabelOf(name) != UNKNOWN_LABEL ==> EXPRESSIONS[LabelOf(name)] == name
  {
  }

  /** Every class id 0..6 is the label of exactly one name: the vocabulary is a bijection. */
  lemma LabelOfOnto(classId: int)
    requires 0 <= classId < NUM_CLASSES
    ensures LabelOf(EXPRESSIONS[classId]) == classId
  {
  }
}
