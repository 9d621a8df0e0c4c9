/**
 * The label table: one class name per line of the label file, indexed by
 * class id. Reading the file is left out; the table is a given sequence.
 */
module LabelTable {

  /** The sentinel name used for a class id the table does not cover. */
  const Unknown: string := "unknown"

  predicate InRange(labelmap: seq<string>, classId: int) {
    0 <= classId < |labelmap|
  }

  /**
   * The class name for an id: the table entry when the id is in range,
   * otherwise the sentinel. The lookup never indexes outside the table: the name is always one of
   * the table's entries or the sentinel.
   */
  function LabelFor(labelmap: seq<string>, classId: int): (name: string)
    ensures name in labelmap || name == Unknown
    ensures InRange(labelmap, classId) ==> name == labelmap[classId]
    ensures !InRange(labelmap, classId) ==> name == Unknown
  {
    if InRange(labelmap, classId) then labelmap[classId] else Unknown
  }

  /**
   * When the table has no entry spelled "unknown", the sentinel appears
   * exactly for the out-of-range ids (negative, or at least the table length).
   */
  lemma UnknownIffOutOfRange(labelmap: seq<string>, classId: int)
    requires Unknown !in labelmap
    ensures LabelFor(labelmap, classId) == Unknown <==> (classId < 0 || classId >= |labelmap|)
  {
  }

  /** With the two-entry table ["person", "car"]: id 0 is "person", ids 99 and -1 are "unknown". */
  lemma TwoEntryTableExample()
    ensures LabelFor(["person", "car"], 0) == "person"
    ensures LabelFor(["person", "car"], 1) == "car"
    ensures LabelFor(["person", "car"], 2) == Unknown
    ensures LabelFor(["person", "car"], 99) == Unknown
    ensures LabelFor(["person", "car"], -1) == Unknown
  {
  }
}
