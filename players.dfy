/** The kinds of player behind the `IAI` interface and the names they report. */
module Players {

  datatype PlayerKind = Learner | Simple | Variant | Random | Human

  /** The `Name` property of each implementation. */
  function Name(k: PlayerKind): string
  {
    match k
    case Learner => "ReinforcementLearningAI"
    case Simple => "SimpleAI"
    case Variant => "SimpleAIVariant"
    case Random => "RandomAI"
    case Human => "Human Player"
  }

  /** The names tell the kinds apart, so a comparison of names is one of kinds. */
  lemma NameInjective(a: PlayerKind, b: PlayerKind)
    ensures Name(a) == Name(b) <==> a == b
  {
    if a != b {
      assert Name(a)[..4] != Name(b)[..4] || |Name(a)| != |Name(b)| || Name(a)[4..] != Name(b)[4..];
    }
  }
}
