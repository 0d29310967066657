/** The phoneme record (`Fonema`) shared by every other module. */
module Phonemes {

  datatype Option<+T> = None | Some(value: T)

  /** The category tag: 'C' (simple consonant), 'S' (semivowel), 'C_MISTA' (cluster). */
  datatype Category = Consonant | Semivowel | Cluster

  /** Places of articulation used by the inventory. */
  datatype Place = Bilabial | Alveolar | Velar | Uvular | Dental | Palatal

  /**
   * A phoneme. Every flag defaults to false and the place to absent, as the
   * `propriedades.get` lookups in `Fonema.__init__` do.
   */
  datatype Phoneme = Phoneme(
    symbol: string,
    category: Category,
    place: Option<Place> := None,
    sibilant: bool := false,
    rhotic: bool := false,
    nasal: bool := false,
    liquid: bool := false,
    obstruent: bool := false)

  /** The place test shared by both cluster rules: velar or bilabial (an absent place is neither). */
  predicate VelarOrBilabial(p: Phoneme) {
    p.place == Some(Velar) || p.place == Some(Bilabial)
  }

  /** What an optional slot contributes to a syllable: the phoneme's symbol, or nothing. */
  function SlotText(slot: Option<Phoneme>): string {
    match slot
    case None => ""
    case Some(p) => p.symbol
  }
}
