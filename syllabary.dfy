/**
 * The script as a whole: register the clusters into `sons`, build the
 * nuclei, then enumerate every syllable the rules allow.
 */
module Syllabary {
  import opened Phonemes
  import opened Registry
  import opened SoundInventory
  import opened Nuclei
  import opened Generator

  /** The script's run: `resultado` is `gerar_tudo()` over the finished `sons` and `vogais_finais`. */
  method Run() returns (syllables: seq<string>)
    ensures syllables == Syllables(Inventory(), AllNuclei())
    ensures exists i, j | 0 <= i < j < |syllables| :: syllables[i] == "ra" && syllables[j] == "ra"
  {
    TablesWellFormed();
    var sons := RegisterClusters(BaseInventory(), ClusterTable());
    var nuclei := BuildNuclei(Vowels());
    syllables := GenerateAll(sons, nuclei);
    ScriptHasRaTwice();
    RaTwice(sons, nuclei);
  }

  /**
   * The output keeps duplicates: over any inventory that holds the
   * hand-written liquid `r`, as the script's does, and any nuclei that
   * include `a`, as the script's do, `ra` is written out twice, once for
   * the onset `r` before an empty liquid slot and once for the liquid `r`
   * after an empty onset.
   */
  lemma RaTwice(sons: seq<Phoneme>, nuclei: seq<string>)
    requires BaseInventory()[11] in sons
    requires "a" in nuclei
    ensures exists i, j | 0 <= i < j < |Syllables(sons, nuclei)| ::
      Syllables(sons, nuclei)[i] == "ra" && Syllables(sons, nuclei)[j] == "ra"
  {
    var r := BaseInventory()[11];
    HandWrittenR();
    LiquidSpelledTwice(sons, nuclei, r, "a");
  }

  /** The hand-written `r` is a liquid consonant, not a cluster, and spells `ra` before `a`. */
  lemma HandWrittenR()
    ensures BaseInventory()[11].liquid && BaseInventory()[11].category != Cluster
    ensures BaseInventory()[11].symbol + "a" == "ra"
  {
  }

  /** The script's own inventory and nuclei meet what `RaTwice` asks of them. */
  lemma ScriptHasRaTwice()
    ensures BaseInventory()[11] in Inventory()
    ensures "a" in AllNuclei()
  {
    InventoryKeepsBase();
    FirstNucleus();
    assert Inventory()[11] == BaseInventory()[11];
  }
}
