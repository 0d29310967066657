/**
 * What the syllable rules make of the finished inventory: which of its
 * clusters may open a syllable, which may close one, and which hand-written
 * entries the nasal rule concerns.
 */
module InventoryRules {
  import opened Phonemes
  import opened Registry
  import opened SoundInventory
  import opened Validator
  import opened Generator

  /** The row of a cluster table begins with `letter`. */
  predicate StartsWith(row: seq<string>, letter: string) {
    |row| > 0 && row[0] == letter
  }

  /** The features a cluster inherits decide whether it may open a syllable (the `ñmn` test aside). */
  predicate OpensFromFirst(first: Phoneme) {
    VelarOrBilabial(first) || first.sibilant
  }

  /** The features a cluster inherits decide whether it may close a syllable (the `ñmn` test aside). */
  predicate ClosesFromFirst(first: Phoneme) {
    !first.sibilant && (VelarOrBilabial(first) || first.liquid)
  }

  lemma OpensFromFirst0()
    ensures forall k | 0 <= k < 8 ::
      OpensFromFirst(BaseInventory()[FirstLetterAt()[k]]) <==> !StartsWith(ClusterTable()[k], "r") && !StartsWith(ClusterTable()[k], "rh")
  {
  }

  lemma OpensFromFirst1()
    ensures forall k | 8 <= k < 16 ::
      OpensFromFirst(BaseInventory()[FirstLetterAt()[k]]) <==> !StartsWith(ClusterTable()[k], "r") && !StartsWith(ClusterTable()[k], "rh")
  {
  }

  lemma OpensFromFirst2()
    ensures forall k | 16 <= k < 24 ::
      OpensFromFirst(BaseInventory()[FirstLetterAt()[k]]) <==> !StartsWith(ClusterTable()[k], "r") && !StartsWith(ClusterTable()[k], "rh")
  {
  }

  lemma OpensFromFirst3()
    ensures forall k | 24 <= k < 32 ::
      OpensFromFirst(BaseInventory()[FirstLetterAt()[k]]) <==> !StartsWith(ClusterTable()[k], "r") && !StartsWith(ClusterTable()[k], "rh")
  {
  }

  lemma ClosesFromFirst0()
    ensures forall k | 0 <= k < 8 :: ClosesFromFirst(BaseInventory()[FirstLetterAt()[k]]) <==> !StartsWith(ClusterTable()[k], "s")
  {
  }

  lemma ClosesFromFirst1()
    ensures forall k | 8 <= k < 16 :: ClosesFromFirst(BaseInventory()[FirstLetterAt()[k]]) <==> !StartsWith(ClusterTable()[k], "s")
  {
  }

  lemma ClosesFromFirst2()
    ensures forall k | 16 <= k < 24 :: ClosesFromFirst(BaseInventory()[FirstLetterAt()[k]]) <==> !StartsWith(ClusterTable()[k], "s")
  {
  }

  lemma ClosesFromFirst3()
    ensures forall k | 24 <= k < 32 :: ClosesFromFirst(BaseInventory()[FirstLetterAt()[k]]) <==> !StartsWith(ClusterTable()[k], "s")
  {
  }

  lemma LiquidFromFirst0()
    ensures forall k | 0 <= k < 8 ::
      BaseInventory()[FirstLetterAt()[k]].liquid <==> StartsWith(ClusterTable()[k], "r") || StartsWith(ClusterTable()[k], "rh")
  {
  }

  lemma LiquidFromFirst1()
    ensures forall k | 8 <= k < 16 ::
      BaseInventory()[FirstLetterAt()[k]].liquid <==> StartsWith(ClusterTable()[k], "r") || StartsWith(ClusterTable()[k], "rh")
  {
  }

  lemma LiquidFromFirst2()
    ensures forall k | 16 <= k < 24 ::
      BaseInventory()[FirstLetterAt()[k]].liquid <==> StartsWith(ClusterTable()[k], "r") || StartsWith(ClusterTable()[k], "rh")
  {
  }

  lemma LiquidFromFirst3()
    ensures forall k | 24 <= k < 32 ::
      BaseInventory()[FirstLetterAt()[k]].liquid <==> StartsWith(ClusterTable()[k], "r") || StartsWith(ClusterTable()[k], "rh")
  {
  }

  /** A cluster spelled by a row that starts with `r` or `rh` is not `ñmn`. */
  lemma NotVelarNasal(row: seq<string>)
    requires StartsWith(row, "r") || StartsWith(row, "rh")
    ensures Join(row) != "ñmn"
  {
    var s := Join(row);
    assert s[..|row[0]|] == row[0];
    assert "ñmn"[..1] == "ñ" && "ñmn"[..2] == "ñm";
  }

  /**
   * For an inventory whose entries after `base` are the clusters of `rows`:
   * when the features inherited from the first letter allow exactly the rows
   * not starting with `r` or `rh` to open a syllable, so does the rule.
   */
  lemma OnsetsByFirstLetter(inv: seq<Phoneme>, base: seq<Phoneme>, rows: seq<seq<string>>, idx: seq<nat>, nucleus: string)
    requires |inv| == |base| + |rows| && |idx| == |rows|
    requires forall k | 0 <= k < |rows| :: idx[k] < |base| && |rows[k]| > 0 && BuiltFrom(inv[|base| + k], rows[k], base[idx[k]])
    requires forall k | 0 <= k < |rows| ::
      && idx[k] < |base| && |rows[k]| > 0
      && (OpensFromFirst(base[idx[k]]) <==> !StartsWith(rows[k], "r") && !StartsWith(rows[k], "rh"))
    ensures forall k | 0 <= k < |rows| ::
      IsValid(Some(inv[|base| + k]), None, nucleus, None) <==> !StartsWith(rows[k], "r") && !StartsWith(rows[k], "rh")
  {
    forall k | 0 <= k < |rows|
      ensures IsValid(Some(inv[|base| + k]), None, nucleus, None) <==> !StartsWith(rows[k], "r") && !StartsWith(rows[k], "rh")
    {
      if StartsWith(rows[k], "r") || StartsWith(rows[k], "rh") {
        NotVelarNasal(rows[k]);
      }
    }
  }

  /**
   * For an inventory whose entries after `base` are the clusters of `rows`:
   * when the features inherited from the first letter allow exactly the rows
   * not starting with `s` to close a syllable, the rule allows those rows
   * except the one spelling `ñmn`.
   */
  lemma CodasByFirstLetter(inv: seq<Phoneme>, base: seq<Phoneme>, rows: seq<seq<string>>, idx: seq<nat>, nucleus: string)
    requires |inv| == |base| + |rows| && |idx| == |rows|
    requires forall k | 0 <= k < |rows| :: idx[k] < |base| && |rows[k]| > 0 && BuiltFrom(inv[|base| + k], rows[k], base[idx[k]])
    requires forall k | 0 <= k < |rows| ::
      && idx[k] < |base| && |rows[k]| > 0
      && (ClosesFromFirst(base[idx[k]]) <==> !StartsWith(rows[k], "s"))
    ensures forall k | 0 <= k < |rows| ::
      IsValid(None, None, nucleus, Some(inv[|base| + k])) <==> !StartsWith(rows[k], "s") && Join(rows[k]) != "ñmn"
  {
  }

  /**
   * Of the 32 clusters of the finished inventory, exactly those whose first
   * letter is `r` or `rh` may not open a syllable.
   */
  lemma ClusterOnsets(nucleus: string)
    ensures |Inventory()| == |BaseInventory()| + |ClusterTable()|
    ensures forall k | 0 <= k < |ClusterTable()| ::
      (IsValid(Some(Inventory()[|BaseInventory()| + k]), None, nucleus, None)
       <==> !StartsWith(ClusterTable()[k], "r") && !StartsWith(ClusterTable()[k], "rh"))
  {
    InventoryClusters();
    FirstLettersFound();
    OpensFromFirst0();
    OpensFromFirst1();
    OpensFromFirst2();
    OpensFromFirst3();
    OnsetsByFirstLetter(Inventory(), BaseInventory(), ClusterTable(), FirstLetterAt(), nucleus);
  }

  /**
   * Of the 32 clusters of the finished inventory, exactly those whose first
   * letter is `s`, and `ñmn`, may not close a syllable.
   */
  lemma ClusterCodas(nucleus: string)
    ensures |Inventory()| == |BaseInventory()| + |ClusterTable()|
    ensures forall k | 0 <= k < |ClusterTable()| ::
      (IsValid(None, None, nucleus, Some(Inventory()[|BaseInventory()| + k]))
       <==> !StartsWith(ClusterTable()[k], "s") && Join(ClusterTable()[k]) != "ñmn")
  {
    InventoryClusters();
    FirstLettersFound();
    ClosesFromFirst0();
    ClosesFromFirst1();
    ClosesFromFirst2();
    ClosesFromFirst3();
    CodasByFirstLetter(Inventory(), BaseInventory(), ClusterTable(), FirstLetterAt(), nucleus);
  }

  /**
   * For an inventory whose entries after `base` are the clusters of `rows`:
   * a cluster may fill the liquid slot exactly when the entry of its first
   * letter is liquid.
   */
  lemma LiquidSlotByFirstLetter(inv: seq<Phoneme>, base: seq<Phoneme>, rows: seq<seq<string>>, idx: seq<nat>)
    requires |inv| == |base| + |rows| && |idx| == |rows|
    requires forall k | 0 <= k < |rows| :: idx[k] < |base| && |rows[k]| > 0 && BuiltFrom(inv[|base| + k], rows[k], base[idx[k]])
    requires forall k | 0 <= k < |rows| ::
      && idx[k] < |base| && |rows[k]| > 0
      && (base[idx[k]].liquid <==> StartsWith(rows[k], "r") || StartsWith(rows[k], "rh"))
    ensures forall k | 0 <= k < |rows| ::
      FitsLiquidSlot(inv[|base| + k]) <==> StartsWith(rows[k], "r") || StartsWith(rows[k], "rh")
  {
  }

  /**
   * Of the 32 clusters of the finished inventory, exactly those whose first
   * letter is `r` or `rh` inherit `liquida` and so also enter the liquid slot.
   */
  lemma ClusterLiquids()
    ensures |Inventory()| == |BaseInventory()| + |ClusterTable()|
    ensures forall k | 0 <= k < |ClusterTable()| ::
      (FitsLiquidSlot(Inventory()[|BaseInventory()| + k])
       <==> StartsWith(ClusterTable()[k], "r") || StartsWith(ClusterTable()[k], "rh"))
  {
    InventoryClusters();
    FirstLettersFound();
    LiquidFromFirst0();
    LiquidFromFirst1();
    LiquidFromFirst2();
    LiquidFromFirst3();
    LiquidSlotByFirstLetter(Inventory(), BaseInventory(), ClusterTable(), FirstLetterAt());
  }

  /**
   * The cluster `rt` (row 10) may close a syllable but not open one; the
   * cluster `ñmn` (row 27) may open a syllable but not close one.
   */
  lemma RtAndVelarNasal(nucleus: string)
    ensures |Inventory()| == |BaseInventory()| + |ClusterTable()|
    ensures var rt := Inventory()[|BaseInventory()| + 10];
      rt.symbol == "rt" && !IsValid(Some(rt), None, nucleus, None) && IsValid(None, None, nucleus, Some(rt))
    ensures var vn := Inventory()[|BaseInventory()| + 27];
      vn.symbol == "ñmn" && IsValid(Some(vn), None, nucleus, None) && !IsValid(None, None, nucleus, Some(vn))
  {
    InventoryClusters();
    ClusterOnsets(nucleus);
    ClusterCodas(nucleus);
    ExampleRows();
  }

  /** Among the hand-written entries, the nasal rule concerns `m`, `n` and `ñ`. */
  lemma BaseNasals()
    ensures forall i | 0 <= i < 19 :: BaseInventory()[i].nasal <==> BaseInventory()[i].symbol in {"m", "n", "ñ"}
  {
  }

  /** Among the hand-written entries, `î`, `w` and `û` are the semivowels, and `r` and `rh` the liquids. */
  lemma BaseLiquidSlot()
    ensures forall i | 0 <= i < 19 :: BaseInventory()[i].category == Semivowel <==> BaseInventory()[i].symbol in {"î", "w", "û"}
    ensures forall i | 0 <= i < 19 :: BaseInventory()[i].liquid <==> BaseInventory()[i].symbol in {"r", "rh"}
  {
  }
}
