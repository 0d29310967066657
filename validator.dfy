/**
 * `validar_silaba`: the phonotactic rules a syllable must pass. A syllable
 * is an optional onset consonant, an optional liquid or semivowel after it,
 * a vowel nucleus and an optional coda consonant; an absent slot is `None`.
 */
module Validator {
  import opened Phonemes

  /** A cluster may open a syllable when it is velar or bilabial, sibilant, or `ñmn`. */
  predicate OnsetClusterAllowed(p: Phoneme) {
    VelarOrBilabial(p) || p.sibilant || p.symbol == "ñmn"
  }

  /** A cluster may close a syllable when it is neither sibilant nor `ñmn`, and is velar, bilabial or liquid. */
  predicate CodaClusterAllowed(p: Phoneme) {
    !p.sibilant && p.symbol != "ñmn" && (VelarOrBilabial(p) || p.liquid)
  }

  /** A nasal onset followed by something in the liquid slot needs that something to be a semivowel. */
  predicate NasalRule(onset: Option<Phoneme>, liquid: Option<Phoneme>) {
    onset.Some? && liquid.Some? && onset.value.nasal ==> liquid.value.category == Semivowel
  }

  /** An onset that is a cluster must be one allowed to open a syllable. */
  predicate OnsetRule(onset: Option<Phoneme>) {
    onset.Some? && onset.value.category == Cluster ==> OnsetClusterAllowed(onset.value)
  }

  /** A coda that is a cluster must be one allowed to close a syllable. */
  predicate CodaRule(coda: Option<Phoneme>) {
    coda.Some? && coda.value.category == Cluster ==> CodaClusterAllowed(coda.value)
  }

  /**
   * The checks in the order `validar_silaba` makes them, each returning false
   * at once: the nasal rule, then the onset cluster rule, then the coda
   * cluster rule. The nucleus is never inspected.
   */
  function IsValid(onset: Option<Phoneme>, liquid: Option<Phoneme>, nucleus: string, coda: Option<Phoneme>): (r: bool)
    ensures r <==> NasalRule(onset, liquid) && OnsetRule(onset) && CodaRule(coda)
  {
    if onset.Some? && liquid.Some? && onset.value.nasal && liquid.value.category != Semivowel then false
    else if onset.Some? && onset.value.category == Cluster
      && !(VelarOrBilabial(onset.value) || onset.value.sibilant || onset.value.symbol == "ñmn") then false
    else if coda.Some? && coda.value.category == Cluster
      && (coda.value.sibilant || coda.value.symbol == "ñmn" || !(VelarOrBilabial(coda.value) || coda.value.liquid)) then false
    else true
  }

  /** The verdict does not depend on the nucleus. */
  lemma NucleusIgnored(onset: Option<Phoneme>, liquid: Option<Phoneme>, n1: string, n2: string, coda: Option<Phoneme>)
    ensures IsValid(onset, liquid, n1, coda) == IsValid(onset, liquid, n2, coda)
  {
  }

  /**
   * The front of the syllable and its coda are judged separately: a syllable
   * passes exactly when it passes without its coda and its coda passes after
   * a bare nucleus.
   */
  lemma SlotsIndependent(onset: Option<Phoneme>, liquid: Option<Phoneme>, nucleus: string, coda: Option<Phoneme>)
    ensures IsValid(onset, liquid, nucleus, coda)
      == (IsValid(onset, liquid, nucleus, None) && IsValid(None, None, nucleus, coda))
  {
  }

  /** Without an onset and a coda nothing is rejected: a nucleus, with or without a liquid before it, always passes. */
  lemma BareNucleusPasses(liquid: Option<Phoneme>, nucleus: string)
    ensures IsValid(None, liquid, nucleus, None)
  {
  }

  /**
   * An onset that is not a cluster (a simple consonant or a semivowel) is
   * rejected only by the nasal rule: only when it is nasal and the liquid
   * slot holds something other than a semivowel.
   */
  lemma SimpleOnset(p: Phoneme, liquid: Option<Phoneme>, nucleus: string)
    requires p.category != Cluster
    ensures !IsValid(Some(p), liquid, nucleus, None) <==> p.nasal && liquid.Some? && liquid.value.category != Semivowel
  {
  }

  /** A coda that is not a cluster never changes the verdict. */
  lemma SimpleCoda(onset: Option<Phoneme>, liquid: Option<Phoneme>, nucleus: string, p: Phoneme)
    requires p.category != Cluster
    ensures IsValid(onset, liquid, nucleus, Some(p)) == IsValid(onset, liquid, nucleus, None)
  {
  }

  /** A semivowel in the liquid slot never changes the verdict; a liquid consonant there is rejected exactly after a nasal onset. */
  lemma LiquidSlot(onset: Option<Phoneme>, q: Phoneme, nucleus: string, coda: Option<Phoneme>)
    ensures q.category == Semivowel ==> IsValid(onset, Some(q), nucleus, coda) == IsValid(onset, None, nucleus, coda)
    ensures q.category != Semivowel ==>
      (IsValid(onset, Some(q), nucleus, coda) <==> IsValid(onset, None, nucleus, coda) && !(onset.Some? && onset.value.nasal))
  {
  }

  /** A sibilant cluster may open a syllable (when nothing but a semivowel follows a nasal) but never close one. */
  lemma SibilantCluster(p: Phoneme, nucleus: string)
    requires p.category == Cluster && p.sibilant
    ensures IsValid(Some(p), None, nucleus, None)
    ensures !IsValid(None, None, nucleus, Some(p))
  {
  }

  /** Whatever its features, the cluster `ñmn` may open a syllable but never close one. */
  lemma VelarNasalCluster(p: Phoneme, nucleus: string)
    requires p.category == Cluster && p.symbol == "ñmn"
    ensures IsValid(Some(p), None, nucleus, None)
    ensures !IsValid(None, None, nucleus, Some(p))
  {
  }

  /** A non-sibilant cluster of any other place than velar or bilabial is rejected as an onset and, when liquid, accepted as a coda. */
  lemma LiquidCluster(p: Phoneme, nucleus: string)
    requires p.category == Cluster && !p.sibilant && !VelarOrBilabial(p) && p.symbol != "ñmn"
    ensures !IsValid(Some(p), None, nucleus, None)
    ensures IsValid(None, None, nucleus, Some(p)) <==> p.liquid
  {
  }
}
