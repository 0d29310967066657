/**
 * The concrete inventory: the nineteen hand-written entries of `sons`, the
 * two cluster tables, and what registering the tables produces.
 */
module SoundInventory {
  import opened Phonemes
  import opened Registry

  /** The hand-written entries of `sons`, in dictionary order. */
  function BaseInventory(): (reg: seq<Phoneme>)
    ensures |reg| == 19
  {
    [
      Phoneme("m", Consonant, place := Some(Bilabial), nasal := true),
      Phoneme("n", Consonant, place := Some(Alveolar), nasal := true),
      Phoneme("ñ", Consonant, place := Some(Velar), nasal := true),
      Phoneme("p", Consonant, place := Some(Bilabial), obstruent := true),
      Phoneme("t", Consonant, place := Some(Alveolar), obstruent := true),
      Phoneme("k", Consonant, place := Some(Velar), obstruent := true),
      Phoneme("q", Consonant, place := Some(Uvular), obstruent := true),
      Phoneme("v", Consonant, place := Some(Bilabial), obstruent := true),
      Phoneme("ð", Consonant, place := Some(Dental), obstruent := true),
      Phoneme("s", Consonant, place := Some(Alveolar), sibilant := true, obstruent := true),
      Phoneme("j", Consonant, place := Some(Velar), obstruent := true),
      Phoneme("r", Consonant, place := Some(Alveolar), rhotic := true, liquid := true),
      Phoneme("rh", Consonant, place := Some(Uvular), rhotic := true, liquid := true),
      Phoneme("b", Consonant, place := Some(Bilabial), obstruent := true),
      Phoneme("d", Consonant, place := Some(Alveolar), obstruent := true),
      Phoneme("g", Consonant, place := Some(Velar), obstruent := true),
      Phoneme("î", Semivowel, place := Some(Palatal)),
      Phoneme("w", Semivowel, place := Some(Bilabial)),
      Phoneme("û", Semivowel, place := Some(Velar))
    ]
  }

  /** The two-letter cluster table `bi_lista`. */
  function PairTable(): (rows: seq<seq<string>>)
    ensures |rows| == 24
  {
    [
      ["s", "p"], ["s", "b"], ["g", "b"], ["j", "v"], ["ñ", "m"], ["p", "t"], ["b", "d"],
      ["m", "n"], ["s", "t"], ["s", "d"], ["r", "t"], ["r", "d"], ["k", "t"], ["g", "d"],
      ["ñ", "n"], ["rh", "t"], ["rh", "d"], ["s", "k"], ["s", "g"], ["r", "k"], ["r", "g"],
      ["s", "q"], ["r", "q"], ["rh", "q"]
    ]
  }

  /** The three-letter cluster table `tri_lista`. */
  function TripleTable(): (rows: seq<seq<string>>)
    ensures |rows| == 8
  {
    [
      ["s", "p", "t"], ["s", "b", "d"], ["g", "b", "d"], ["ñ", "m", "n"], ["s", "k", "t"],
      ["s", "g", "d"], ["r", "k", "t"], ["r", "g", "d"]
    ]
  }

  /** The rows in registration order: `bi_lista + tri_lista`. */
  function ClusterTable(): (rows: seq<seq<string>>)
    ensures |rows| == 32
  {
    PairTable() + TripleTable()
  }

  /**
   * The symbols of the hand-written entries, in order. Proof scaffolding, not
   * part of the model: `BaseNamesMatch` ties it to `BaseInventory`.
   */
  function BaseNames(): (names: seq<string>)
    ensures |names| == 19
  {
    ["m", "n", "ñ", "p", "t", "k", "q", "v", "ð", "s", "j", "r", "rh", "b", "d", "g", "î", "w", "û"]
  }

  /** The same symbols as a set. Proof scaffolding: `BaseKeys` ties it to `BaseInventory`. */
  function BaseSymbols(): set<string> {
    {"m", "n", "ñ", "p", "t", "k", "q", "v", "ð", "s", "j", "r", "rh", "b", "d", "g", "î", "w", "û"}
  }

  /**
   * The symbol each row spells, in registration order. Proof scaffolding, not
   * part of the model: `TablesSpell` proves it is what `Join` gives for each row.
   */
  function ClusterNames(): (names: seq<string>)
    ensures |names| == 32
  {
    [
      "sp", "sb", "gb", "jv", "ñm", "pt", "bd", "mn", "st", "sd", "rt", "rd", "kt", "gd", "ñn",
      "rht", "rhd", "sk", "sg", "rk", "rg", "sq", "rq", "rhq", "spt", "sbd", "gbd", "ñmn",
      "skt", "sgd", "rkt", "rgd"
    ]
  }

  lemma BaseNamesDistinct()
    ensures forall i, j | 0 <= i < j < 19 :: BaseNames()[i] != BaseNames()[j]
  {
  }

  lemma BaseNamesMatch()
    ensures forall i | 0 <= i < 19 :: BaseInventory()[i].symbol == BaseNames()[i]
  {
  }

  lemma BaseKeysWithin()
    ensures Keys(BaseInventory()) <= BaseSymbols()
  {
  }

  /** No two hand-written entries share a symbol. */
  lemma BaseKeysUnique()
    ensures UniqueKeys(BaseInventory())
  {
    BaseNamesDistinct();
    BaseNamesMatch();
  }

  /** The keys of the hand-written entries are exactly `BaseSymbols`. */
  lemma BaseKeys()
    ensures Keys(BaseInventory()) == BaseSymbols()
  {
    BaseKeysWithin();
    var reg := BaseInventory();
    KeyAt(reg, 0);
    KeyAt(reg, 1);
    KeyAt(reg, 2);
    KeyAt(reg, 3);
    KeyAt(reg, 4);
    KeyAt(reg, 5);
    KeyAt(reg, 6);
    KeyAt(reg, 7);
    KeyAt(reg, 8);
    KeyAt(reg, 9);
    KeyAt(reg, 10);
    KeyAt(reg, 11);
    KeyAt(reg, 12);
    KeyAt(reg, 13);
    KeyAt(reg, 14);
    KeyAt(reg, 15);
    KeyAt(reg, 16);
    KeyAt(reg, 17);
    KeyAt(reg, 18);
  }

  lemma PairsStartRegistered()
    ensures forall k | 0 <= k < 24 :: |PairTable()[k]| > 0 && PairTable()[k][0] in BaseSymbols()
  {
  }

  lemma TriplesStartRegistered()
    ensures forall k | 0 <= k < 8 :: |TripleTable()[k]| > 0 && TripleTable()[k][0] in BaseSymbols()
  {
  }

  /** Every row of both tables starts with a letter of the hand-written inventory. */
  lemma TablesWellFormed()
    ensures WellFormedRows(BaseInventory(), ClusterTable())
  {
    BaseKeys();
    PairsStartRegistered();
    TriplesStartRegistered();
    var rows := ClusterTable();
    forall k | 0 <= k < 32 ensures |rows[k]| > 0 && rows[k][0] in BaseSymbols() {
      if k < 24 {
        assert rows[k] == PairTable()[k];
      } else {
        assert rows[k] == TripleTable()[k - 24];
      }
    }
  }

  lemma PairsSpell0()
    ensures forall k | 0 <= k < 8 :: Join(PairTable()[k]) == ClusterNames()[k]
  {
  }

  lemma PairsSpell1()
    ensures forall k | 8 <= k < 16 :: Join(PairTable()[k]) == ClusterNames()[k]
  {
  }

  lemma PairsSpell2()
    ensures forall k | 16 <= k < 24 :: Join(PairTable()[k]) == ClusterNames()[k]
  {
  }

  lemma TriplesSpell0()
    ensures forall k | 0 <= k < 4 :: Join(TripleTable()[k]) == ClusterNames()[24 + k]
  {
  }

  lemma TriplesSpell1()
    ensures forall k | 4 <= k < 8 :: Join(TripleTable()[k]) == ClusterNames()[24 + k]
  {
  }

  /** Row `k` of the registration order spells `ClusterNames()[k]`. */
  lemma TablesSpell()
    ensures forall k | 0 <= k < 32 :: Join(ClusterTable()[k]) == ClusterNames()[k]
  {
    PairsSpell0();
    PairsSpell1();
    PairsSpell2();
    TriplesSpell0();
    TriplesSpell1();
    var rows := ClusterTable();
    forall k | 0 <= k < 32 ensures Join(rows[k]) == ClusterNames()[k] {
      if k < 24 {
        assert rows[k] == PairTable()[k];
      } else {
        assert rows[k] == TripleTable()[k - 24];
      }
    }
  }

  lemma ClusterNamesNew()
    ensures forall k | 0 <= k < 32 :: ClusterNames()[k] !in BaseSymbols()
  {
  }

  lemma ClusterNamesDistinct()
    ensures forall i, j | 0 <= i < j < 32 :: ClusterNames()[i] != ClusterNames()[j]
  {
  }

  /** No cluster symbol repeats a hand-written symbol or another cluster's. */
  lemma TablesFresh()
    ensures FreshRows(Keys(BaseInventory()), ClusterTable())
  {
    BaseKeys();
    TablesSpell();
    ClusterNamesNew();
    ClusterNamesDistinct();
    var rows := ClusterTable();
    forall k | 0 <= k < 32 ensures Join(rows[k]) !in BaseSymbols() {
      assert Join(rows[k]) == ClusterNames()[k];
    }
    forall i, j | 0 <= i < j < 32 ensures Join(rows[i]) != Join(rows[j]) {
      assert Join(rows[i]) == ClusterNames()[i] && Join(rows[j]) == ClusterNames()[j];
    }
  }

  /** `sons` after the registration loop over `bi_lista + tri_lista`. */
  function Inventory(): seq<Phoneme> {
    TablesWellFormed();
    InsertAll(BaseInventory(), ClusterTable())
  }

  /**
   * The finished inventory is the nineteen hand-written entries in their
   * order, then the 24 two-letter and the 8 three-letter clusters in table
   * order, each built from the hand-written entries: no registration
   * overwrites an earlier entry.
   */
  lemma InventoryLayout()
    ensures WellFormedRows(BaseInventory(), ClusterTable())
    ensures Inventory() == BaseInventory() + Clusters(BaseInventory(), ClusterTable())
  {
    TablesWellFormed();
    TablesFresh();
    InsertFreshAppends(BaseInventory(), ClusterTable());
  }

  lemma PrefixKept(inv: seq<Phoneme>, base: seq<Phoneme>, rest: seq<Phoneme>)
    requires inv == base + rest
    ensures |base| <= |inv|
    ensures forall k | 0 <= k < |base| :: inv[k] == base[k]
  {
  }

  /** Registering the clusters leaves every hand-written entry where it was. */
  lemma InventoryKeepsBase()
    ensures |BaseInventory()| <= |Inventory()|
    ensures forall k | 0 <= k < |BaseInventory()| :: Inventory()[k] == BaseInventory()[k]
  {
    InventoryLayout();
    PrefixKept(Inventory(), BaseInventory(), Clusters(BaseInventory(), ClusterTable()));
  }

  /** The finished inventory has 51 entries. */
  lemma InventorySize()
    ensures |Inventory()| == 51
  {
    InventoryLayout();
  }

  /** No two entries of the finished inventory share a symbol. */
  lemma InventoryUnique()
    ensures UniqueKeys(Inventory())
  {
    BaseKeysUnique();
  }

  /** Every cluster symbol, and every hand-written symbol, is a key of the finished inventory. */
  lemma InventoryKeys()
    ensures forall k | 0 <= k < 32 :: ClusterNames()[k] in Keys(Inventory())
    ensures BaseSymbols() <= Keys(Inventory())
  {
    TablesWellFormed();
    InsertAllRegistersEveryRow(BaseInventory(), ClusterTable());
    TablesSpell();
    BaseKeys();
  }

  /** Row 10 of the registration order is `r t`, row 27 is `ñ m n`. */
  lemma ExampleRows()
    ensures |ClusterTable()| == 32
    ensures ClusterTable()[10] == ["r", "t"] && Join(ClusterTable()[10]) == "rt"
    ensures ClusterTable()[27] == ["ñ", "m", "n"] && Join(ClusterTable()[27]) == "ñmn"
  {
  }

  /** Where the first letter of each table row sits among the hand-written entries. */
  function FirstLetterAt(): (idx: seq<nat>)
    ensures |idx| == 32 && forall k | 0 <= k < 32 :: idx[k] < 19
  {
    [9, 9, 15, 10, 2, 3, 13, 0, 9, 9, 11, 11, 5, 15, 2, 12, 12, 9, 9, 11, 11, 9, 11, 12,
     9, 9, 15, 2, 9, 9, 11, 11]
  }

  /** The first letter of two-letter rows 0 to 3, by index. */
  lemma PairFirstLetters0()
    ensures forall k | 0 <= k < 4 :: |PairTable()[k]| > 0 && BaseNames()[FirstLetterAt()[k]] == PairTable()[k][0]
  {
    forall k | 0 <= k < 4 ensures |PairTable()[k]| > 0 && BaseNames()[FirstLetterAt()[k]] == PairTable()[k][0] {
      if k == 0 {
      } else if k == 1 {
      } else if k == 2 {
      } else {
        assert k == 3;
      }
    }
  }

  /** The first letter of two-letter rows 4 to 7, by index. */
  lemma PairFirstLetters1()
    ensures forall k | 4 <= k < 8 :: |PairTable()[k]| > 0 && BaseNames()[FirstLetterAt()[k]] == PairTable()[k][0]
  {
    forall k | 4 <= k < 8 ensures |PairTable()[k]| > 0 && BaseNames()[FirstLetterAt()[k]] == PairTable()[k][0] {
      if k == 4 {
      } else if k == 5 {
      } else if k == 6 {
      } else {
        assert k == 7;
      }
    }
  }

  /** The first letter of two-letter rows 8 to 11, by index. */
  lemma PairFirstLetters2()
    ensures forall k | 8 <= k < 12 :: |PairTable()[k]| > 0 && BaseNames()[FirstLetterAt()[k]] == PairTable()[k][0]
  {
    forall k | 8 <= k < 12 ensures |PairTable()[k]| > 0 && BaseNames()[FirstLetterAt()[k]] == PairTable()[k][0] {
      if k == 8 {
      } else if k == 9 {
      } else if k == 10 {
      } else {
        assert k == 11;
      }
    }
  }

  /** The first letter of two-letter rows 12 to 15, by index. */
  lemma PairFirstLetters3()
    ensures forall k | 12 <= k < 16 :: |PairTable()[k]| > 0 && BaseNames()[FirstLetterAt()[k]] == PairTable()[k][0]
  {
    forall k | 12 <= k < 16 ensures |PairTable()[k]| > 0 && BaseNames()[FirstLetterAt()[k]] == PairTable()[k][0] {
      if k == 12 {
      } else if k == 13 {
      } else if k == 14 {
      } else {
        assert k == 15;
      }
    }
  }

  /** The first letter of two-letter rows 16 to 19, by index. */
  lemma PairFirstLetters4()
    ensures forall k | 16 <= k < 20 :: |PairTable()[k]| > 0 && BaseNames()[FirstLetterAt()[k]] == PairTable()[k][0]
  {
    forall k | 16 <= k < 20 ensures |PairTable()[k]| > 0 && BaseNames()[FirstLetterAt()[k]] == PairTable()[k][0] {
      if k == 16 {
      } else if k == 17 {
      } else if k == 18 {
      } else {
        assert k == 19;
      }
    }
  }

  /** The first letter of two-letter rows 20 to 23, by index. */
  lemma PairFirstLetters5()
    ensures forall k | 20 <= k < 24 :: |PairTable()[k]| > 0 && BaseNames()[FirstLetterAt()[k]] == PairTable()[k][0]
  {
    forall k | 20 <= k < 24 ensures |PairTable()[k]| > 0 && BaseNames()[FirstLetterAt()[k]] == PairTable()[k][0] {
      if k == 20 {
      } else if k == 21 {
      } else if k == 22 {
      } else {
        assert k == 23;
      }
    }
  }

  /** The first letter of three-letter rows 0 to 3, by index. */
  lemma TripleFirstLetters0()
    ensures forall k | 0 <= k < 4 :: |TripleTable()[k]| > 0 && BaseNames()[FirstLetterAt()[24 + k]] == TripleTable()[k][0]
  {
    forall k | 0 <= k < 4 ensures |TripleTable()[k]| > 0 && BaseNames()[FirstLetterAt()[24 + k]] == TripleTable()[k][0] {
      if k == 0 {
      } else if k == 1 {
      } else if k == 2 {
      } else {
        assert k == 3;
      }
    }
  }

  /** The first letter of three-letter rows 4 to 7, by index. */
  lemma TripleFirstLetters1()
    ensures forall k | 4 <= k < 8 :: |TripleTable()[k]| > 0 && BaseNames()[FirstLetterAt()[24 + k]] == TripleTable()[k][0]
  {
    forall k | 4 <= k < 8 ensures |TripleTable()[k]| > 0 && BaseNames()[FirstLetterAt()[24 + k]] == TripleTable()[k][0] {
      if k == 4 {
      } else if k == 5 {
      } else if k == 6 {
      } else {
        assert k == 7;
      }
    }
  }

  /** `FirstLetterAt()` locates the first letter of every row among the hand-written entries. */
  lemma FirstLettersFound()
    ensures LocatesFirstLetters(BaseInventory(), ClusterTable(), FirstLetterAt())
  {
    PairFirstLetters0();
    PairFirstLetters1();
    PairFirstLetters2();
    PairFirstLetters3();
    PairFirstLetters4();
    PairFirstLetters5();
    TripleFirstLetters0();
    TripleFirstLetters1();
    BaseNamesMatch();
    var rows, idx := ClusterTable(), FirstLetterAt();
    forall k | 0 <= k < 32 ensures |rows[k]| > 0 && BaseInventory()[idx[k]].symbol == rows[k][0] {
      if k < 24 {
        assert rows[k] == PairTable()[k];
      } else {
        assert rows[k] == TripleTable()[k - 24];
      }
    }
  }

  /**
   * Entry `19 + k` of the finished inventory is the cluster of row `k`: it is
   * spelled by the row, it is a cluster and never an obstruent, and it takes
   * place, sibilance, rhoticity, nasality and liquidity from the hand-written
   * entry of its first letter.
   */
  lemma InventoryClusters()
    ensures |Inventory()| == |BaseInventory()| + |ClusterTable()|
    ensures forall k | 0 <= k < |ClusterTable()| ::
      BuiltFrom(Inventory()[|BaseInventory()| + k], ClusterTable()[k], BaseInventory()[FirstLetterAt()[k]])
    ensures LocatesFirstLetters(BaseInventory(), ClusterTable(), FirstLetterAt())
  {
    InventoryLayout();
    BaseKeysUnique();
    FirstLettersFound();
    ClustersFrom(BaseInventory(), ClusterTable(), FirstLetterAt(), Inventory());
  }
}
