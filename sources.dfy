/** The retrieved-source record shared by the conversation manager and the
    lineage tracker. */
module Sources {
  /** A source attached to an answer: a dictionary of string fields
      (`act_title`, `section_number`, `clause_number`, …). */
  type Source = map<string, string>
}
