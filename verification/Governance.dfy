/** Effective rules of a poll or petition, and the two gates that read them. */
module Governance {
  import opened Wrappers
  import opened RecordTypes

  function RulesOf(content: Option<Content>): EntityRules {
    match content
    case Some(Json(_, _, Some(r), _)) => r
    case _ => EntityRules(Absent, None, None)
  }

  /** The entity's own rules win field by field over the jurisdiction's; the last resort is permissive. */
  function ResolveRules(base: EntityRules, own: EntityRules): EntityRules {
    EntityRules(
      if own.deadline.Absent? then base.deadline else own.deadline,
      Some(FirstOf(own.allowChange, base.allowChange)),
      Some(FirstOf(own.allowRevoke, base.allowRevoke)))
  }

  function FirstOf(own: Option<bool>, base: Option<bool>): bool {
    match (own, base)
    case (Some(b), _) => b
    case (None, Some(b)) => b
    case (None, None) => true
  }

  /** A missing or blank deadline never passes; one that does not parse has always passed. */
  predicate WithinDeadline(rules: EntityRules, now: int) {
    match rules.deadline
    case Absent => true
    case Blank => true
    case At(ms) => now < ms
    case Unparsable => false
  }

  /** The gate of a vote change: exactly when no effective "final" rule applies and the effective
    * deadline, the entity's if it sets one and the jurisdiction's otherwise, is still ahead. */
  predicate ChangeAllowed(base: EntityRules, own: EntityRules, now: int) {
    var r := ResolveRules(base, own);
    r.allowChange == Some(true) && WithinDeadline(r, now)
  }

  predicate RevokeAllowed(base: EntityRules, own: EntityRules, now: int) {
    var r := ResolveRules(base, own);
    r.allowRevoke == Some(true) && WithinDeadline(r, now)
  }

  /** The doc comments call the default final; the code's last resort is to allow. With no rule set by
    * either side a vote may change at any time, and a final vote needs an explicit `false` or a deadline. */
  lemma DefaultIsLoose(base: EntityRules, own: EntityRules, now: int)
    ensures base == own == EntityRules(Absent, None, None)
      ==> ChangeAllowed(base, own, now) && RevokeAllowed(base, own, now)
    ensures !ChangeAllowed(base, own, now) ==>
      || own.allowChange == Some(false) || base.allowChange == Some(false)
      || own.deadline.At? || own.deadline.Unparsable? || base.deadline.At? || base.deadline.Unparsable?
  {
  }

  /** What the entity sets, the jurisdiction cannot override; what it leaves out, the jurisdiction decides. */
  lemma EntityWins(base: EntityRules, other: EntityRules, own: EntityRules, now: int)
    ensures own.deadline != Absent && own.allowChange.Some? ==>
      (ChangeAllowed(base, own, now) <==> ChangeAllowed(other, own, now))
    ensures own.deadline != Absent && own.allowRevoke.Some? ==>
      (RevokeAllowed(base, own, now) <==> RevokeAllowed(other, own, now))
    ensures own == EntityRules(Absent, None, None) ==>
      && (ChangeAllowed(base, own, now) <==> base.allowChange != Some(false) && !Passed(base.deadline, now))
      && (RevokeAllowed(base, own, now) <==> base.allowRevoke != Some(false) && !Passed(base.deadline, now))
  {
  }

  /** A deadline that has passed: a date that is not ahead, or a text that is no date. */
  predicate Passed(deadline: Deadline, now: int) {
    deadline == Unparsable || (deadline.At? && deadline.ms <= now)
  }

  /** A flag that refuses: the entity's own word, or the jurisdiction's where the entity has none. */
  predicate Refuses(own: Option<bool>, base: Option<bool>) {
    own == Some(false) || (own == None && base == Some(false))
  }

  /** The gates field by field: allowed exactly if nothing refuses and the deadline, the entity's own or else the
    * jurisdiction's, has not passed. */
  lemma GatesExactly(base: EntityRules, own: EntityRules, now: int)
    ensures var deadline := if own.deadline == Absent then base.deadline else own.deadline;
      && (ChangeAllowed(base, own, now) <==> !Refuses(own.allowChange, base.allowChange) && !Passed(deadline, now))
      && (RevokeAllowed(base, own, now) <==> !Refuses(own.allowRevoke, base.allowRevoke) && !Passed(deadline, now))
  {
  }

  /** Once closed, forever closed: with the rules fixed, time only ever withdraws permission. */
  lemma ClosingIsFinal(base: EntityRules, own: EntityRules, now: int, later: int)
    requires now <= later
    ensures ChangeAllowed(base, own, later) ==> ChangeAllowed(base, own, now)
    ensures RevokeAllowed(base, own, later) ==> RevokeAllowed(base, own, now)
  {
  }
}
