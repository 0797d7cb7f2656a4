/** Diagnosis strengths and diagnoses, shared by the deterministic workflows and the agent. */
module Diagnoses {
  import Evidence

  type Id = Evidence.Id

  datatype Strength = Confirmed | Strong | Probable | Insufficient

  datatype Diagnosis = Diagnosis(strength: Strength, evidence: seq<Id>)

  /** Every cited id is among the given ones. */
  predicate Within(ids: seq<Id>, all: seq<Id>)
  {
    forall i | 0 <= i < |ids| :: ids[i] in all
  }

  /** CONFIRMED is stronger than STRONG, that than PROBABLE, and that than INSUFFICIENT. */
  predicate Stronger(a: Strength, b: Strength)
  {
    match b
    case Confirmed => false
    case Strong => a.Confirmed?
    case Probable => a.Confirmed? || a.Strong?
    case Insufficient => !a.Insufficient?
  }

  function Rank(s: Strength): nat
  {
    match s
    case Insufficient => 0
    case Probable => 1
    case Strong => 2
    case Confirmed => 3
  }
}
