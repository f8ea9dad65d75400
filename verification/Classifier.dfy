/** The kind-to-tier routing of `internal/store/classifier.go`. */
module Classifier {

  datatype Tier = Permanent | Archive | Social | Drop

  type Override = map<int, Tier>

  const ACTIVE_TIERS: seq<Tier> := [Permanent, Archive, Social]

  const IN_SCOPE_KINDS: seq<int> := [0, 1, 3, 6, 7, 16, 9735, 10002]

  function Classify(kind: int): Tier {
    if kind in {0, 3, 9735, 10002} then Permanent
    else if kind == 1 then Archive
    else if kind in {6, 7, 16} then Social
    else Drop
  }

  function ClassifyWithOverride(kind: int, override: Override): Tier {
    if kind in override then override[kind] else Classify(kind)
  }

  predicate IsReplaceable(kind: int) {
    kind in {0, 3, 10002}
  }

  /** What the relay stores, and where: profiles, contacts, zap receipts and relay
      lists permanently, notes in the archive, reposts and reactions as social. */
  lemma InScopeIsStored(kind: int)
    ensures Classify(kind) != Drop <==> kind in IN_SCOPE_KINDS
    ensures Classify(kind) == Permanent <==> kind in {0, 3, 9735, 10002}
    ensures Classify(kind) == Archive <==> kind == 1
    ensures Classify(kind) == Social <==> kind in {6, 7, 16}
  {
  }

  /** A configured kind goes where the override says, any other where it goes by default. */
  lemma OverrideWins(kind: int, tier: Tier, override: Override)
    ensures ClassifyWithOverride(kind, override[kind := tier]) == tier
    ensures ClassifyWithOverride(kind, override - {kind}) == Classify(kind)
  {
  }

  /** On the kinds it stores, replaceable is what the "Kinds" section of NIP-01 calls so. */
  lemma ReplaceableIsNip01(kind: int)
    requires kind in IN_SCOPE_KINDS
    ensures IsReplaceable(kind) <==> kind == 0 || kind == 3 || 10000 <= kind < 20000
  {
  }
}
