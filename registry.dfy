/**
 * The phoneme inventory `sons` and the cluster builder.
 *
 * The inventory is an insertion-ordered dictionary from a symbol to the
 * phoneme carrying that symbol. It is modelled as the sequence of its values
 * in insertion order, keyed by `symbol`: every key of `sons`
 * equals the `char` of the phoneme stored under it.
 */
module Registry {
  import opened Phonemes

  /** The keys of the inventory. */
  function Keys(reg: seq<Phoneme>): set<string> {
    set p | p in reg :: p.symbol
  }

  /** No two entries share a key, as in any dictionary. */
  predicate UniqueKeys(reg: seq<Phoneme>) {
    forall i, j | 0 <= i < j < |reg| :: reg[i].symbol != reg[j].symbol
  }

  lemma KeyAt(reg: seq<Phoneme>, i: nat)
    requires i < |reg|
    ensures reg[i].symbol in Keys(reg)
  {
    assert reg[i] in reg;
  }

  lemma KeysOfAppend(reg: seq<Phoneme>, p: Phoneme)
    ensures Keys(reg + [p]) == Keys(reg) + {p.symbol}
  {
    assert p == (reg + [p])[|reg|];
    forall q | q in reg ensures q in reg + [p] {
      var i :| 0 <= i < |reg| && reg[i] == q;
      assert (reg + [p])[i] == q;
    }
  }

  /** The phoneme stored under `key`: the dictionary read `sons[key]`. */
  function Lookup(reg: seq<Phoneme>, key: string): (p: Phoneme)
    requires key in Keys(reg)
    ensures p in reg && p.symbol == key
  {
    if reg[0].symbol == key then reg[0]
    else
      assert key in Keys(reg[1..]) by {
        var q :| q in reg && q.symbol == key;
        var i :| 0 <= i < |reg| && reg[i] == q;
        assert i != 0 && reg[1..][i - 1] == q;
      }
      Lookup(reg[1..], key)
  }

  /** With unique keys the entry read under `key` is the only one carrying `key`. */
  lemma LookupUnique(reg: seq<Phoneme>, key: string, i: nat)
    requires UniqueKeys(reg) && i < |reg| && reg[i].symbol == key
    ensures key in Keys(reg) && Lookup(reg, key) == reg[i]
  {
    KeyAt(reg, i);
    var p := Lookup(reg, key);
    var j :| 0 <= j < |reg| && reg[j] == p;
    assert i == j;
  }

  /** Entries appended after `key` is stored do not change what `key` reads. */
  lemma {:induction false} LookupPrefix(a: seq<Phoneme>, b: seq<Phoneme>, key: string)
    requires key in Keys(a)
    ensures key in Keys(a + b)
    ensures Lookup(a + b, key) == Lookup(a, key)
  {
    var p := Lookup(a, key);
    var i :| 0 <= i < |a| && a[i] == p;
    assert (a + b)[i] == p;
    KeyAt(a + b, i);
    if a[0].symbol != key {
      assert key in Keys(a[1..]) by {
        assert i != 0 && a[1..][i - 1] == p;
        KeyAt(a[1..], i - 1);
      }
      assert (a + b)[1..] == a[1..] + b;
      LookupPrefix(a[1..], b, key);
    }
  }

  /**
   * The dictionary assignment `sons[p.symbol] = p`: a new key is appended at
   * the end; an existing key keeps its position and gets the new value.
   */
  function Put(reg: seq<Phoneme>, p: Phoneme): (r: seq<Phoneme>)
    ensures Keys(r) == Keys(reg) + {p.symbol}
    ensures p.symbol !in Keys(reg) ==> r == reg + [p]
  {
    if reg == [] then [p]
    else if reg[0].symbol == p.symbol then
      assert Keys([p] + reg[1..]) == Keys(reg) by {
        assert reg == [reg[0]] + reg[1..];
      }
      [p] + reg[1..]
    else
      assert Keys(reg) == {reg[0].symbol} + Keys(reg[1..]) by {
        assert reg == [reg[0]] + reg[1..];
      }
      var rest := Put(reg[1..], p);
      assert Keys([reg[0]] + rest) == {reg[0].symbol} + Keys(rest) by {
        assert forall q | q in [reg[0]] + rest :: q == reg[0] || q in rest;
      }
      [reg[0]] + rest
  }

  /**
   * Storing under a key that is present replaces that entry in place and
   * touches nothing else; afterwards the key reads the new value and keys
   * are still unique.
   */
  lemma {:induction false} PutOverwrites(reg: seq<Phoneme>, p: Phoneme)
    requires UniqueKeys(reg) && p.symbol in Keys(reg)
    ensures |Put(reg, p)| == |reg|
    ensures forall i | 0 <= i < |reg| :: Put(reg, p)[i] == if reg[i].symbol == p.symbol then p else reg[i]
    ensures UniqueKeys(Put(reg, p))
  {
    if reg[0].symbol != p.symbol {
      assert p.symbol in Keys(reg[1..]) by {
        var q :| q in reg && q.symbol == p.symbol;
        var i :| 0 <= i < |reg| && reg[i] == q;
        assert i != 0 && reg[1..][i - 1] == q;
      }
      PutOverwrites(reg[1..], p);
    } else {
      forall i | 0 < i < |reg| ensures reg[i].symbol != p.symbol {
      }
    }
  }

  /** Storing never breaks key uniqueness, and the stored key reads back the stored value. */
  lemma PutKeepsUnique(reg: seq<Phoneme>, p: Phoneme)
    requires UniqueKeys(reg)
    ensures UniqueKeys(Put(reg, p))
    ensures p.symbol in Keys(Put(reg, p)) && Lookup(Put(reg, p), p.symbol) == p
  {
    var r := Put(reg, p);
    if p.symbol in Keys(reg) {
      PutOverwrites(reg, p);
      var q :| q in reg && q.symbol == p.symbol;
      var i :| 0 <= i < |reg| && reg[i] == q;
      LookupUnique(r, p.symbol, i);
    } else {
      forall i, j | 0 <= i < j < |r| ensures r[i].symbol != r[j].symbol {
        if j == |reg| { KeyAt(reg, i); }
      }
      LookupUnique(r, p.symbol, |reg|);
    }
  }

  /** String concatenation `"".join(parts)`. */
  function Join(parts: seq<string>): (s: string)
    ensures parts != [] ==> |parts[0]| <= |s| && s[..|parts[0]|] == parts[0]
  {
    if parts == [] then "" else parts[0] + Join(parts[1..])
  }

  /**
   * `criar_mistura`: a cluster phoneme spelled by the concatenated letters,
   * whose place, sibilant, rhotic, nasal and liquid are those of the FIRST
   * letter's phoneme only; `obstruent` is never passed on, so it stays false.
   */
  function MakeCluster(reg: seq<Phoneme>, letters: seq<string>): (c: Phoneme)
    requires |letters| > 0 && letters[0] in Keys(reg)
    ensures c.symbol == Join(letters) && c.category == Cluster
    ensures var first := Lookup(reg, letters[0]);
      && c.place == first.place && c.sibilant == first.sibilant && c.rhotic == first.rhotic
      && c.nasal == first.nasal && c.liquid == first.liquid
    ensures !c.obstruent
  {
    var first := Lookup(reg, letters[0]);
    Phoneme(Join(letters), Cluster, place := first.place, sibilant := first.sibilant,
            rhotic := first.rhotic, nasal := first.nasal, liquid := first.liquid)
  }

  /** Everything but the spelling of a cluster depends on its first letter alone. */
  lemma ClusterIgnoresLaterLetters(reg: seq<Phoneme>, first: string, xs: seq<string>, ys: seq<string>)
    requires first in Keys(reg)
    ensures MakeCluster(reg, [first] + xs).(symbol := "") == MakeCluster(reg, [first] + ys).(symbol := "")
  {
  }

  /** Every row of a cluster table names at least one letter, and its first letter is registered. */
  predicate WellFormedRows(reg: seq<Phoneme>, rows: seq<seq<string>>) {
    forall k | 0 <= k < |rows| :: |rows[k]| > 0 && rows[k][0] in Keys(reg)
  }

  lemma WellFormedRowsTail(reg: seq<Phoneme>, rows: seq<seq<string>>)
    requires WellFormedRows(reg, rows) && rows != []
    ensures WellFormedRows(reg, rows[1..])
  {
    forall k | 0 <= k < |rows| - 1 ensures |rows[1..][k]| > 0 && rows[1..][k][0] in Keys(reg) {
      assert rows[1..][k] == rows[k + 1];
    }
  }

  /**
   * The registration loop as a fold: each row builds its cluster from the
   * inventory as it stands at that point and stores it under its symbol.
   */
  function InsertAll(reg: seq<Phoneme>, rows: seq<seq<string>>): (r: seq<Phoneme>)
    requires WellFormedRows(reg, rows)
    ensures Keys(reg) <= Keys(r)
    ensures UniqueKeys(reg) ==> UniqueKeys(r)
    decreases |rows|
  {
    if rows == [] then reg
    else
      var c := MakeCluster(reg, rows[0]);
      assert UniqueKeys(reg) ==> UniqueKeys(Put(reg, c)) by {
        if UniqueKeys(reg) { PutKeepsUnique(reg, c); }
      }
      InsertAll(Put(reg, c), rows[1..])
  }

  /** After the loop every row's symbol is a key. */
  lemma {:induction false} InsertAllRegistersEveryRow(reg: seq<Phoneme>, rows: seq<seq<string>>)
    requires WellFormedRows(reg, rows)
    ensures forall k | 0 <= k < |rows| :: Join(rows[k]) in Keys(InsertAll(reg, rows))
    decreases |rows|
  {
    if rows != [] {
      var next := Put(reg, MakeCluster(reg, rows[0]));
      InsertAllRegistersEveryRow(next, rows[1..]);
      forall k | 1 <= k < |rows| ensures Join(rows[k]) in Keys(InsertAll(reg, rows)) {
        assert rows[k] == rows[1..][k - 1];
      }
    }
  }

  /**
   * `for l in rows: m = criar_mistura(l); sons[m.char] = m`, run on a copy of
   * `base`: the result is the fold above.
   */
  method RegisterClusters(base: seq<Phoneme>, rows: seq<seq<string>>) returns (sons: seq<Phoneme>)
    requires WellFormedRows(base, rows)
    ensures sons == InsertAll(base, rows)
  {
    sons := base;
    var i := 0;
    while i < |rows|
      invariant 0 <= i <= |rows|
      invariant Keys(base) <= Keys(sons)
      invariant WellFormedRows(sons, rows[i..])
      invariant InsertAll(sons, rows[i..]) == InsertAll(base, rows)
    {
      assert rows[i..][0] == rows[i] && rows[i..][1..] == rows[i + 1..];
      var m := MakeCluster(sons, rows[i]);
      sons := Put(sons, m);
      i := i + 1;
    }
    assert rows[i..] == [];
  }

  /** The clusters of a table, each built against the same inventory `reg`. */
  function Clusters(reg: seq<Phoneme>, rows: seq<seq<string>>): (cs: seq<Phoneme>)
    requires WellFormedRows(reg, rows)
    ensures |cs| == |rows|
    ensures forall k | 0 <= k < |rows| :: cs[k] == MakeCluster(reg, rows[k])
    decreases |rows|
  {
    if rows == [] then [] else [MakeCluster(reg, rows[0])] + Clusters(reg, rows[1..])
  }

  /** No row's symbol is already in `seen`, and no two rows spell the same symbol. */
  predicate FreshRows(seen: set<string>, rows: seq<seq<string>>) {
    && (forall k | 0 <= k < |rows| :: Join(rows[k]) !in seen)
    && (forall i, j | 0 <= i < j < |rows| :: Join(rows[i]) != Join(rows[j]))
  }

  lemma FreshRowsAppend(reg: seq<Phoneme>, c: Phoneme, rows: seq<seq<string>>)
    requires FreshRows(Keys(reg), rows) && rows != [] && c.symbol == Join(rows[0])
    ensures c.symbol !in Keys(reg) && FreshRows(Keys(reg + [c]), rows[1..])
  {
    KeysOfAppend(reg, c);
    forall k | 0 <= k < |rows| - 1 ensures Join(rows[1..][k]) !in Keys(reg + [c]) {
      assert rows[1..][k] == rows[k + 1];
    }
    forall i, j | 0 <= i < j < |rows| - 1 ensures Join(rows[1..][i]) != Join(rows[1..][j]) {
      assert rows[1..][i] == rows[i + 1] && rows[1..][j] == rows[j + 1];
    }
  }

  lemma ClustersOnExtension(reg: seq<Phoneme>, more: seq<Phoneme>, rows: seq<seq<string>>)
    requires WellFormedRows(reg, rows)
    ensures WellFormedRows(reg + more, rows)
    ensures Clusters(reg + more, rows) == Clusters(reg, rows)
  {
    forall k | 0 <= k < |rows| ensures rows[k][0] in Keys(reg + more) && Lookup(reg + more, rows[k][0]) == Lookup(reg, rows[k][0]) {
      LookupPrefix(reg, more, rows[k][0]);
    }
  }

  lemma ClustersCons(reg: seq<Phoneme>, rows: seq<seq<string>>)
    requires WellFormedRows(reg, rows) && rows != []
    ensures WellFormedRows(reg, rows[1..])
    ensures Clusters(reg, rows) == [MakeCluster(reg, rows[0])] + Clusters(reg, rows[1..])
  {
    WellFormedRowsTail(reg, rows);
  }

  lemma AppendAssoc(a: seq<Phoneme>, b: seq<Phoneme>, c: seq<Phoneme>)
    ensures a + b + c == a + (b + c)
  {
  }

  /** One step of the fold: the first row's cluster is stored, then the rest follow. */
  lemma InsertAllStep(reg: seq<Phoneme>, rows: seq<seq<string>>)
    requires WellFormedRows(reg, rows) && rows != []
    ensures WellFormedRows(Put(reg, MakeCluster(reg, rows[0])), rows[1..])
    ensures InsertAll(reg, rows) == InsertAll(Put(reg, MakeCluster(reg, rows[0])), rows[1..])
  {
    WellFormedRowsTail(reg, rows);
  }

  /** The step of the fold for a fresh first row, given the claim for the rest of the table. */
  lemma InsertFreshStep(reg: seq<Phoneme>, rows: seq<seq<string>>, c: Phoneme)
    requires WellFormedRows(reg, rows) && rows != [] && c == MakeCluster(reg, rows[0])
    requires c.symbol !in Keys(reg) && WellFormedRows(reg + [c], rows[1..])
    requires InsertAll(reg + [c], rows[1..]) == reg + [c] + Clusters(reg + [c], rows[1..])
    ensures InsertAll(reg, rows) == reg + Clusters(reg, rows)
  {
    WellFormedRowsTail(reg, rows);
    InsertAllStep(reg, rows);
    ClustersOnExtension(reg, [c], rows[1..]);
    ClustersCons(reg, rows);
    AppendAssoc(reg, [c], Clusters(reg, rows[1..]));
  }

  /**
   * When no symbol collides, the registration loop never overwrites: the
   * inventory is the base followed by the table's clusters in table order,
   * each built from the base entries.
   */
  lemma {:induction false} InsertFreshAppends(reg: seq<Phoneme>, rows: seq<seq<string>>)
    requires WellFormedRows(reg, rows) && FreshRows(Keys(reg), rows)
    ensures InsertAll(reg, rows) == reg + Clusters(reg, rows)
    decreases |rows|
  {
    if rows != [] {
      var c := MakeCluster(reg, rows[0]);
      WellFormedRowsTail(reg, rows);
      FreshRowsAppend(reg, c, rows);
      ClustersOnExtension(reg, [c], rows[1..]);
      InsertFreshAppends(reg + [c], rows[1..]);
      InsertFreshStep(reg, rows, c);
    }
  }

  /**
   * `c` is the cluster spelled by `row` whose features come from `first`:
   * what `criar_mistura` builds once the first letter of `row` reads `first`.
   */
  predicate BuiltFrom(c: Phoneme, row: seq<string>, first: Phoneme) {
    && c.symbol == Join(row) && c.category == Cluster && !c.obstruent
    && c.place == first.place && c.sibilant == first.sibilant && c.rhotic == first.rhotic
    && c.nasal == first.nasal && c.liquid == first.liquid
  }

  /** `idx[k]` is the position in `reg` of the first letter of row `k`. */
  predicate LocatesFirstLetters(reg: seq<Phoneme>, rows: seq<seq<string>>, idx: seq<nat>) {
    |idx| == |rows| && forall k | 0 <= k < |rows| :: idx[k] < |reg| && |rows[k]| > 0 && reg[idx[k]].symbol == rows[k][0]
  }

  /**
   * An inventory made of `reg` followed by the clusters of `rows`: the entry
   * after `reg` for row `k` is the cluster of that row, with the features of
   * the entry of `reg` that holds its first letter.
   */
  lemma ClustersFrom(reg: seq<Phoneme>, rows: seq<seq<string>>, idx: seq<nat>, inv: seq<Phoneme>)
    requires WellFormedRows(reg, rows) && UniqueKeys(reg) && LocatesFirstLetters(reg, rows, idx)
    requires inv == reg + Clusters(reg, rows)
    ensures |inv| == |reg| + |rows|
    ensures forall k | 0 <= k < |rows| :: BuiltFrom(inv[|reg| + k], rows[k], reg[idx[k]])
  {
    forall k | 0 <= k < |rows| ensures inv[|reg| + k] == MakeCluster(reg, rows[k]) && Lookup(reg, rows[k][0]) == reg[idx[k]] {
      LookupUnique(reg, rows[k][0], idx[k]);
    }
  }
}
