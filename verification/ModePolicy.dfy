/** The gate that every forward change passes, at preview and again at apply. */
module ModePolicy {
  datatype OperatingMode = ReadOnly | Safe | Full
  datatype OperationType = Create | Update | Delete

  /** False where `check` raises ModeViolationError. */
  predicate Permits(mode: OperatingMode, op: OperationType) {
    match mode
    case ReadOnly => false
    case Safe => op != Delete
    case Full => true
  }

  /** Each mode permits what the one before it does and one thing more: nothing; all but deletes; all. */
  lemma PermitsIff(mode: OperatingMode, op: OperationType)
    ensures Permits(mode, op) <==> (mode == Safe && op in {Create, Update}) || mode == Full
  {
  }
}
