/**
 * `gerar_tudo`: the exhaustive enumeration. Every combination of an onset
 * consonant, a liquid, a nucleus and a coda consonant is judged by
 * `validar_silaba`, and the combinations that pass are written out, in the
 * order of the nested enumeration: onset outermost, coda fastest.
 */
module Generator {
  import opened Phonemes
  import opened Validator

  /** One combination of the four slot values. */
  datatype Candidate = Candidate(onset: Option<Phoneme>, liquid: Option<Phoneme>, nucleus: string, coda: Option<Phoneme>)

  // ---------------------------------------------------------------------------
  // Slot domains
  // ---------------------------------------------------------------------------

  function Somes(ps: seq<Phoneme>): (r: seq<Option<Phoneme>>)
    ensures |r| == |ps| && forall i | 0 <= i < |ps| :: r[i] == Some(ps[i])
  {
    seq(|ps|, i requires 0 <= i < |ps| => Some(ps[i]))
  }

  lemma InSomes(ps: seq<Phoneme>, o: Option<Phoneme>)
    ensures o in Somes(ps) <==> o.Some? && o.value in ps
  {
    if o.Some? && o.value in ps {
      var i :| 0 <= i < |ps| && ps[i] == o.value;
      assert Somes(ps)[i] == o;
    }
  }

  /** `consoantes`: no consonant, then every entry of the inventory in inventory order. */
  function ConsonantDomain(sons: seq<Phoneme>): (d: seq<Option<Phoneme>>)
    ensures |d| == |sons| + 1 && d[0] == None
    ensures forall i | 0 <= i < |sons| :: d[i + 1] == Some(sons[i])
  {
    [None] + Somes(sons)
  }

  /** An entry may fill the liquid slot when it is liquid or a semivowel. */
  predicate FitsLiquidSlot(p: Phoneme) {
    p.liquid || p.category == Semivowel
  }

  /** The entries that may fill the liquid slot, in inventory order. */
  function LiquidEntries(sons: seq<Phoneme>): (r: seq<Phoneme>)
    ensures |r| <= |sons|
    ensures forall p :: p in r <==> p in sons && FitsLiquidSlot(p)
  {
    if sons == [] then []
    else (if FitsLiquidSlot(sons[0]) then [sons[0]] else []) + LiquidEntries(sons[1..])
  }

  /** `liquidas`: no liquid, then every entry that may fill the liquid slot. */
  function LiquidDomain(sons: seq<Phoneme>): (d: seq<Option<Phoneme>>)
    ensures 1 <= |d| <= |sons| + 1 && d[0] == None
  {
    [None] + Somes(LiquidEntries(sons))
  }

  /** Each domain holds "absent" and exactly the entries it draws from the inventory. */
  lemma DomainMembers(sons: seq<Phoneme>, o: Option<Phoneme>)
    ensures o in ConsonantDomain(sons) <==> o == None || o.value in sons
    ensures o in LiquidDomain(sons) <==> o == None || (o.value in sons && FitsLiquidSlot(o.value))
  {
    InSomes(sons, o);
    InSomes(LiquidEntries(sons), o);
  }

  // ---------------------------------------------------------------------------
  // The cross product, in enumeration order
  // ---------------------------------------------------------------------------

  /** The concatenation of `blocks`, in order. */
  function Flatten<T>(blocks: seq<seq<T>>): seq<T> {
    if blocks == [] then [] else Flatten(blocks[..|blocks| - 1]) + blocks[|blocks| - 1]
  }

  lemma {:induction false} MulMono(x: nat, y: nat, n: nat)
    requires x <= y
    ensures x * n <= y * n
    decreases y - x
  {
    if x < y {
      MulMono(x + 1, y, n);
    }
  }

  /** Position `j` of row `i` lies inside `rows` rows of `n`. */
  lemma RowBound(i: nat, j: nat, rows: nat, n: nat)
    requires i < rows && j < n
    ensures i * n + j < rows * n
  {
    MulMono(i + 1, rows, n);
  }

  lemma {:induction false} FlattenLength<T>(blocks: seq<seq<T>>, n: nat)
    requires forall k | 0 <= k < |blocks| :: |blocks[k]| == n
    ensures |Flatten(blocks)| == |blocks| * n
    decreases |blocks|
  {
    if blocks != [] {
      var init := blocks[..|blocks| - 1];
      FlattenLength(init, n);
      assert |blocks| * n == |init| * n + n;
    }
  }

  /** Position `j` of row `i`, in rows of `n`. */
  function Offset(i: nat, n: nat, j: nat): nat {
    i * n + j
  }

  /** Blocks of one size `n`: entry `j` of block `i` sits at position `i * n + j` of the concatenation. */
  lemma {:induction false} FlattenAt<T>(blocks: seq<seq<T>>, n: nat, i: nat, j: nat)
    requires forall k | 0 <= k < |blocks| :: |blocks[k]| == n
    requires i < |blocks| && j < n
    ensures |Flatten(blocks)| == |blocks| * n && Offset(i, n, j) < |blocks| * n
    ensures Flatten(blocks)[Offset(i, n, j)] == blocks[i][j]
    decreases |blocks|
  {
    var init := blocks[..|blocks| - 1];
    FlattenLength(blocks, n);
    FlattenLength(init, n);
    RowBound(i, j, |blocks|, n);
    if i < |init| {
      RowBound(i, j, |init|, n);
      FlattenAt(init, n, i, j);
      assert init[i] == blocks[i];
    }
  }

  lemma {:induction false} FlattenMember<T>(blocks: seq<seq<T>>, x: T)
    ensures x in Flatten(blocks) <==> exists k | 0 <= k < |blocks| :: x in blocks[k]
    decreases |blocks|
  {
    if blocks != [] {
      var init := blocks[..|blocks| - 1];
      FlattenMember(init, x);
      assert x in Flatten(blocks) <==> x in Flatten(init) || x in blocks[|blocks| - 1];
      if x in Flatten(init) {
        var k :| 0 <= k < |init| && x in init[k];
        assert init[k] == blocks[k];
      }
      if exists k | 0 <= k < |blocks| :: x in blocks[k] {
        var k :| 0 <= k < |blocks| && x in blocks[k];
        if k < |init| {
          assert init[k] == blocks[k];
        }
      }
    }
  }

  /** The innermost level: one onset, liquid and nucleus with every coda of `cs`. */
  function CodaRow(o: Option<Phoneme>, l: Option<Phoneme>, v: string, cs: seq<Option<Phoneme>>): (row: seq<Candidate>)
    ensures |row| == |cs|
  {
    seq(|cs|, d requires 0 <= d < |cs| => Candidate(o, l, v, cs[d]))
  }

  function NucleusBlocks(o: Option<Phoneme>, l: Option<Phoneme>, vs: seq<string>, cs: seq<Option<Phoneme>>): (b: seq<seq<Candidate>>)
    ensures |b| == |vs|
  {
    seq(|vs|, c requires 0 <= c < |vs| => CodaRow(o, l, vs[c], cs))
  }

  /** One onset and liquid with every nucleus of `vs`, each with every coda of `cs`. */
  function NucleusRows(o: Option<Phoneme>, l: Option<Phoneme>, vs: seq<string>, cs: seq<Option<Phoneme>>): seq<Candidate> {
    Flatten(NucleusBlocks(o, l, vs, cs))
  }

  function LiquidBlocks(o: Option<Phoneme>, ls: seq<Option<Phoneme>>, vs: seq<string>, cs: seq<Option<Phoneme>>): (b: seq<seq<Candidate>>)
    ensures |b| == |ls|
  {
    seq(|ls|, b requires 0 <= b < |ls| => NucleusRows(o, ls[b], vs, cs))
  }

  /** One onset with every liquid of `ls`, and so on inwards. */
  function LiquidRows(o: Option<Phoneme>, ls: seq<Option<Phoneme>>, vs: seq<string>, cs: seq<Option<Phoneme>>): seq<Candidate> {
    Flatten(LiquidBlocks(o, ls, vs, cs))
  }

  function OnsetBlocks(os: seq<Option<Phoneme>>, ls: seq<Option<Phoneme>>, vs: seq<string>, cs: seq<Option<Phoneme>>): (b: seq<seq<Candidate>>)
    ensures |b| == |os|
  {
    seq(|os|, a requires 0 <= a < |os| => LiquidRows(os[a], ls, vs, cs))
  }

  /** `itertools.product(os, ls, vs, cs)`: every combination, the last slot varying fastest. */
  function Tuples(os: seq<Option<Phoneme>>, ls: seq<Option<Phoneme>>, vs: seq<string>, cs: seq<Option<Phoneme>>): seq<Candidate> {
    Flatten(OnsetBlocks(os, ls, vs, cs))
  }

  lemma NucleusRowsLength(o: Option<Phoneme>, l: Option<Phoneme>, vs: seq<string>, cs: seq<Option<Phoneme>>)
    ensures |NucleusRows(o, l, vs, cs)| == |vs| * |cs|
  {
    FlattenLength(NucleusBlocks(o, l, vs, cs), |cs|);
  }

  lemma LiquidRowsLength(o: Option<Phoneme>, ls: seq<Option<Phoneme>>, vs: seq<string>, cs: seq<Option<Phoneme>>)
    ensures |LiquidRows(o, ls, vs, cs)| == |ls| * (|vs| * |cs|)
  {
    var blocks := LiquidBlocks(o, ls, vs, cs);
    forall k | 0 <= k < |ls| ensures |blocks[k]| == |vs| * |cs| {
      NucleusRowsLength(o, ls[k], vs, cs);
    }
    FlattenLength(blocks, |vs| * |cs|);
  }

  /** The product has one entry per combination of the four domains. */
  lemma TuplesLength(os: seq<Option<Phoneme>>, ls: seq<Option<Phoneme>>, vs: seq<string>, cs: seq<Option<Phoneme>>)
    ensures |Tuples(os, ls, vs, cs)| == |os| * (|ls| * (|vs| * |cs|))
  {
    var blocks := OnsetBlocks(os, ls, vs, cs);
    forall k | 0 <= k < |os| ensures |blocks[k]| == |ls| * (|vs| * |cs|) {
      LiquidRowsLength(os[k], ls, vs, cs);
    }
    FlattenLength(blocks, |ls| * (|vs| * |cs|));
  }

  lemma NucleusRowsAt(o: Option<Phoneme>, l: Option<Phoneme>, vs: seq<string>, cs: seq<Option<Phoneme>>, c: nat, d: nat)
    requires c < |vs| && d < |cs|
    ensures |NucleusRows(o, l, vs, cs)| == |vs| * |cs| && Offset(c, |cs|, d) < |vs| * |cs|
    ensures NucleusRows(o, l, vs, cs)[Offset(c, |cs|, d)] == Candidate(o, l, vs[c], cs[d])
  {
    FlattenAt(NucleusBlocks(o, l, vs, cs), |cs|, c, d);
  }

  lemma LiquidRowsAt(o: Option<Phoneme>, ls: seq<Option<Phoneme>>, vs: seq<string>, cs: seq<Option<Phoneme>>, b: nat, c: nat, d: nat)
    requires b < |ls| && c < |vs| && d < |cs|
    ensures |LiquidRows(o, ls, vs, cs)| == |ls| * (|vs| * |cs|)
    ensures Offset(b, |vs| * |cs|, Offset(c, |cs|, d)) < |ls| * (|vs| * |cs|)
    ensures LiquidRows(o, ls, vs, cs)[Offset(b, |vs| * |cs|, Offset(c, |cs|, d))] == Candidate(o, ls[b], vs[c], cs[d])
  {
    var blocks := LiquidBlocks(o, ls, vs, cs);
    forall k | 0 <= k < |ls| ensures |blocks[k]| == |vs| * |cs| {
      NucleusRowsLength(o, ls[k], vs, cs);
    }
    NucleusRowsAt(o, ls[b], vs, cs, c, d);
    FlattenAt(blocks, |vs| * |cs|, b, Offset(c, |cs|, d));
  }

  /** The mixed-radix number with digits `a b c d` and digit counts `nl`, `nv`, `nc` after the first. */
  function Position(a: nat, b: nat, c: nat, d: nat, nl: nat, nv: nat, nc: nat): nat {
    Offset(a, nl * (nv * nc), Offset(b, nv * nc, Offset(c, nc, d)))
  }

  /**
   * The enumeration order: the product has one entry per combination, and
   * the combination of the `a`-th onset, `b`-th liquid, `c`-th nucleus and
   * `d`-th coda sits at the mixed-radix position `a b c d`.
   */
  lemma TuplesAt(os: seq<Option<Phoneme>>, ls: seq<Option<Phoneme>>, vs: seq<string>, cs: seq<Option<Phoneme>>,
                 a: nat, b: nat, c: nat, d: nat)
    requires a < |os| && b < |ls| && c < |vs| && d < |cs|
    ensures |Tuples(os, ls, vs, cs)| == |os| * (|ls| * (|vs| * |cs|))
    ensures Position(a, b, c, d, |ls|, |vs|, |cs|) < |Tuples(os, ls, vs, cs)|
    ensures Tuples(os, ls, vs, cs)[Position(a, b, c, d, |ls|, |vs|, |cs|)] == Candidate(os[a], ls[b], vs[c], cs[d])
  {
    var blocks := OnsetBlocks(os, ls, vs, cs);
    var n := |ls| * (|vs| * |cs|);
    forall k | 0 <= k < |os| ensures |blocks[k]| == n {
      LiquidRowsLength(os[k], ls, vs, cs);
    }
    LiquidRowsAt(os[a], ls, vs, cs, b, c, d);
    FlattenAt(blocks, n, a, Offset(b, |vs| * |cs|, Offset(c, |cs|, d)));
  }

  /** An entry of one of the blocks is an entry of their concatenation. */
  lemma InFlatten<T>(blocks: seq<seq<T>>, i: nat, x: T)
    requires i < |blocks| && x in blocks[i]
    ensures x in Flatten(blocks)
  {
    FlattenMember(blocks, x);
  }

  /** Every combination of domain values occurs in the product. */
  lemma CombinationInTuples(os: seq<Option<Phoneme>>, ls: seq<Option<Phoneme>>, vs: seq<string>, cs: seq<Option<Phoneme>>,
                            a: nat, b: nat, c: nat, d: nat)
    requires a < |os| && b < |ls| && c < |vs| && d < |cs|
    ensures Candidate(os[a], ls[b], vs[c], cs[d]) in Tuples(os, ls, vs, cs)
  {
    var t := Candidate(os[a], ls[b], vs[c], cs[d]);
    assert CodaRow(os[a], ls[b], vs[c], cs)[d] == t;
    InFlatten(NucleusBlocks(os[a], ls[b], vs, cs), c, t);
    InFlatten(LiquidBlocks(os[a], ls, vs, cs), b, t);
    InFlatten(OnsetBlocks(os, ls, vs, cs), a, t);
  }

  lemma InNucleusRows(o: Option<Phoneme>, l: Option<Phoneme>, vs: seq<string>, cs: seq<Option<Phoneme>>, t: Candidate)
    requires t in NucleusRows(o, l, vs, cs)
    ensures t.onset == o && t.liquid == l && t.nucleus in vs && t.coda in cs
  {
    var blocks := NucleusBlocks(o, l, vs, cs);
    FlattenMember(blocks, t);
    var c :| 0 <= c < |vs| && t in blocks[c];
    var d :| 0 <= d < |cs| && blocks[c][d] == t;
  }

  lemma InLiquidRows(o: Option<Phoneme>, ls: seq<Option<Phoneme>>, vs: seq<string>, cs: seq<Option<Phoneme>>, t: Candidate)
    requires t in LiquidRows(o, ls, vs, cs)
    ensures t.onset == o && t.liquid in ls && t.nucleus in vs && t.coda in cs
  {
    var blocks := LiquidBlocks(o, ls, vs, cs);
    FlattenMember(blocks, t);
    var b :| 0 <= b < |ls| && t in blocks[b];
    InNucleusRows(o, ls[b], vs, cs, t);
  }

  lemma TupleSlots(os: seq<Option<Phoneme>>, ls: seq<Option<Phoneme>>, vs: seq<string>, cs: seq<Option<Phoneme>>, t: Candidate)
    requires t in Tuples(os, ls, vs, cs)
    ensures t.onset in os && t.liquid in ls && t.nucleus in vs && t.coda in cs
  {
    var blocks := OnsetBlocks(os, ls, vs, cs);
    FlattenMember(blocks, t);
    var a :| 0 <= a < |os| && t in blocks[a];
    InLiquidRows(os[a], ls, vs, cs, t);
  }

  /** A combination is in the product exactly when each of its slot values is in its domain. */
  lemma InTuples(os: seq<Option<Phoneme>>, ls: seq<Option<Phoneme>>, vs: seq<string>, cs: seq<Option<Phoneme>>, t: Candidate)
    ensures t in Tuples(os, ls, vs, cs) <==> t.onset in os && t.liquid in ls && t.nucleus in vs && t.coda in cs
  {
    if t in Tuples(os, ls, vs, cs) {
      TupleSlots(os, ls, vs, cs, t);
    }
    if t.onset in os && t.liquid in ls && t.nucleus in vs && t.coda in cs {
      var a :| 0 <= a < |os| && os[a] == t.onset;
      var b :| 0 <= b < |ls| && ls[b] == t.liquid;
      var c :| 0 <= c < |vs| && vs[c] == t.nucleus;
      var d :| 0 <= d < |cs| && cs[d] == t.coda;
      CombinationInTuples(os, ls, vs, cs, a, b, c, d);
    }
  }

  // ---------------------------------------------------------------------------
  // Filtering and writing out
  // ---------------------------------------------------------------------------

  /** The syllable a combination spells: its present slots' symbols around the nucleus. */
  function Render(t: Candidate): string {
    SlotText(t.onset) + SlotText(t.liquid) + t.nucleus + SlotText(t.coda)
  }

  predicate Passes(t: Candidate) {
    IsValid(t.onset, t.liquid, t.nucleus, t.coda)
  }

  /** What one combination contributes: its syllable when it passes, nothing otherwise. */
  function Contribution(t: Candidate): seq<string> {
    if Passes(t) then [Render(t)] else []
  }

  /** The syllables of the combinations of `ts` that pass, in the order of `ts`. */
  function Kept(ts: seq<Candidate>): seq<string> {
    if ts == [] then [] else Kept(ts[..|ts| - 1]) + Contribution(ts[|ts| - 1])
  }

  /** The combinations of `ts` that pass, in order. */
  function Passing(ts: seq<Candidate>): (r: seq<Candidate>)
    ensures |r| <= |ts|
    ensures forall t :: t in r <==> t in ts && Passes(t)
  {
    if ts == [] then [] else Passing(ts[..|ts| - 1]) + (if Passes(ts[|ts| - 1]) then [ts[|ts| - 1]] else [])
  }

  lemma KeptStep(ts: seq<Candidate>, i: nat)
    requires i < |ts|
    ensures Kept(ts[..i + 1]) == Kept(ts[..i]) + Contribution(ts[i])
  {
    assert ts[..i + 1][..i] == ts[..i];
  }

  /**
   * Filtering and writing out in one pass is filtering, then writing out:
   * one syllable per passing combination, in order, none merged or dropped.
   */
  lemma {:induction false} KeptIsRenderedPassing(ts: seq<Candidate>)
    ensures |Kept(ts)| == |Passing(ts)|
    ensures forall i | 0 <= i < |Kept(ts)| :: Kept(ts)[i] == Render(Passing(ts)[i])
    decreases |ts|
  {
    if ts != [] {
      var init, last := ts[..|ts| - 1], ts[|ts| - 1];
      KeptIsRenderedPassing(init);
      if Passes(last) {
        assert Kept(ts) == Kept(init) + [Render(last)];
        assert Passing(ts) == Passing(init) + [last];
        forall i | 0 <= i < |Kept(ts)| ensures Kept(ts)[i] == Render(Passing(ts)[i]) {
          if i < |Kept(init)| {
            assert Kept(ts)[i] == Kept(init)[i] && Passing(ts)[i] == Passing(init)[i];
          }
        }
      } else {
        assert Kept(ts) == Kept(init);
        assert Passing(ts) == Passing(init);
      }
    }
  }

  /** A string is kept exactly when some passing combination of `ts` spells it. */
  lemma {:induction false} InKept(ts: seq<Candidate>, s: string)
    ensures s in Kept(ts) <==> exists t | t in ts :: Passes(t) && Render(t) == s
    decreases |ts|
  {
    if ts != [] {
      var init, last := ts[..|ts| - 1], ts[|ts| - 1];
      InKept(init, s);
      assert Kept(ts) == Kept(init) + Contribution(last);
      if s in Kept(init) {
        var t :| t in init && Passes(t) && Render(t) == s;
        assert t in ts;
      } else if s in Contribution(last) {
        assert last in ts && Passes(last) && Render(last) == s;
      }
      if exists t | t in ts :: Passes(t) && Render(t) == s {
        var t :| t in ts && Passes(t) && Render(t) == s;
        if t == last {
          assert s in Contribution(last);
        } else {
          assert t in init;
        }
      }
    }
  }

  /** `gerar_tudo` over the inventory `sons` and the nuclei `nuclei`. */
  function Syllables(sons: seq<Phoneme>, nuclei: seq<string>): seq<string> {
    Kept(Tuples(ConsonantDomain(sons), LiquidDomain(sons), nuclei, ConsonantDomain(sons)))
  }

  /**
   * The combination draws its onset and coda (absent or from the
   * inventory), its liquid (absent, or a liquid or semivowel of the
   * inventory) and its nucleus from the domains `gerar_tudo` builds.
   */
  predicate Drawable(sons: seq<Phoneme>, nuclei: seq<string>, t: Candidate) {
    && t.nucleus in nuclei
    && (t.onset == None || t.onset.value in sons)
    && (t.liquid == None || (t.liquid.value in sons && FitsLiquidSlot(t.liquid.value)))
    && (t.coda == None || t.coda.value in sons)
  }

  /** A string is produced exactly when some drawable combination passes the rules and spells it. */
  lemma SyllableMembers(sons: seq<Phoneme>, nuclei: seq<string>, s: string)
    ensures s in Syllables(sons, nuclei) <==> exists t | Drawable(sons, nuclei, t) :: Passes(t) && Render(t) == s
  {
    var os, ls := ConsonantDomain(sons), LiquidDomain(sons);
    var ts := Tuples(os, ls, nuclei, os);
    InKept(ts, s);
    if s in Syllables(sons, nuclei) {
      var t :| t in ts && Passes(t) && Render(t) == s;
      InTuples(os, ls, nuclei, os, t);
      DomainMembers(sons, t.onset);
      DomainMembers(sons, t.liquid);
      DomainMembers(sons, t.coda);
    }
    if exists t | Drawable(sons, nuclei, t) :: Passes(t) && Render(t) == s {
      var t :| Drawable(sons, nuclei, t) && Passes(t) && Render(t) == s;
      DomainMembers(sons, t.onset);
      DomainMembers(sons, t.liquid);
      DomainMembers(sons, t.coda);
      InTuples(os, ls, nuclei, os, t);
    }
  }

  /** No syllable is produced whose nasal onset is followed by anything but a semivowel. */
  lemma NasalOnsetExcluded(ts: seq<Candidate>)
    ensures forall t | t in Passing(ts) :: t.onset.Some? && t.onset.value.nasal && t.liquid.Some? ==> t.liquid.value.category == Semivowel
  {
  }

  /**
   * There is no deduplication: as many syllables as passing combinations,
   * at most as many as there are combinations.
   */
  lemma SyllableCount(sons: seq<Phoneme>, nuclei: seq<string>)
    ensures var os, ls := ConsonantDomain(sons), LiquidDomain(sons);
      var ts := Tuples(os, ls, nuclei, os);
      |Syllables(sons, nuclei)| == |Passing(ts)| <= |ts| == |os| * (|ls| * (|nuclei| * |os|))
  {
    var os, ls := ConsonantDomain(sons), LiquidDomain(sons);
    KeptIsRenderedPassing(Tuples(os, ls, nuclei, os));
    TuplesLength(os, ls, nuclei, os);
  }

  lemma TwoPositions(r: seq<Candidate>, out: seq<string>, t1: Candidate, t2: Candidate, s: string)
    requires |out| == |r| && forall i | 0 <= i < |out| :: out[i] == Render(r[i])
    requires t1 != t2 && t1 in r && t2 in r && Render(t1) == s && Render(t2) == s
    ensures exists i, j | 0 <= i < j < |out| :: out[i] == s && out[j] == s
  {
    var i1 :| 0 <= i1 < |r| && r[i1] == t1;
    var i2 :| 0 <= i2 < |r| && r[i2] == t2;
    if i1 < i2 {
      assert out[i1] == s && out[i2] == s;
    } else {
      assert out[i2] == s && out[i1] == s;
    }
  }

  /** Two different passing combinations that spell the same string give two entries of the output. */
  lemma SpelledTwice(ts: seq<Candidate>, t1: Candidate, t2: Candidate, s: string)
    requires t1 != t2 && t1 in ts && t2 in ts && Passes(t1) && Passes(t2) && Render(t1) == s && Render(t2) == s
    ensures exists i, j | 0 <= i < j < |Kept(ts)| :: Kept(ts)[i] == s && Kept(ts)[j] == s
  {
    KeptIsRenderedPassing(ts);
    assert t1 in Passing(ts) && t2 in Passing(ts);
    TwoPositions(Passing(ts), Kept(ts), t1, t2, s);
  }

  /** The onset-only and the liquid-only combination of an inventory entry that fits both slots are in the product. */
  lemma OnsetOrLiquidCombinations(sons: seq<Phoneme>, nuclei: seq<string>, p: Phoneme, v: string)
    requires p in sons && FitsLiquidSlot(p) && v in nuclei
    ensures Candidate(Some(p), None, v, None) in Tuples(ConsonantDomain(sons), LiquidDomain(sons), nuclei, ConsonantDomain(sons))
    ensures Candidate(None, Some(p), v, None) in Tuples(ConsonantDomain(sons), LiquidDomain(sons), nuclei, ConsonantDomain(sons))
  {
    var os, ls := ConsonantDomain(sons), LiquidDomain(sons);
    DomainMembers(sons, Some(p));
    DomainMembers(sons, None);
    InTuples(os, ls, nuclei, os, Candidate(Some(p), None, v, None));
    InTuples(os, ls, nuclei, os, Candidate(None, Some(p), v, None));
  }

  /** A phoneme alone before the nucleus spells the same whether it fills the onset or the liquid slot. */
  lemma OnsetOrLiquidSpelling(p: Phoneme, v: string)
    ensures Render(Candidate(Some(p), None, v, None)) == p.symbol + v
    ensures Render(Candidate(None, Some(p), v, None)) == p.symbol + v
  {
    assert p.symbol + "" + v + "" == p.symbol + v;
    assert "" + p.symbol + v + "" == p.symbol + v;
  }

  /**
   * There is no deduplication: a liquid consonant of the inventory that is
   * not a cluster, with any nucleus, is written out at two different
   * positions, once as the onset before an empty liquid slot and once in
   * the liquid slot after an empty onset.
   */
  lemma LiquidSpelledTwice(sons: seq<Phoneme>, nuclei: seq<string>, p: Phoneme, v: string)
    requires p in sons && p.liquid && p.category != Cluster && v in nuclei
    ensures exists i, j | 0 <= i < j < |Syllables(sons, nuclei)| ::
      Syllables(sons, nuclei)[i] == p.symbol + v && Syllables(sons, nuclei)[j] == p.symbol + v
  {
    var os, ls := ConsonantDomain(sons), LiquidDomain(sons);
    var t1 := Candidate(Some(p), None, v, None);
    var t2 := Candidate(None, Some(p), v, None);
    OnsetOrLiquidCombinations(sons, nuclei, p, v);
    OnsetOrLiquidSpelling(p, v);
    SpelledTwice(Tuples(os, ls, nuclei, os), t1, t2, p.symbol + v);
    assert Syllables(sons, nuclei) == Kept(Tuples(os, ls, nuclei, os));
  }

  // ---------------------------------------------------------------------------
  // The generator
  // ---------------------------------------------------------------------------

  /**
   * `gerar_tudo`: builds the two domains, then walks the product of onsets,
   * liquids, nuclei and codas once, appending the syllable of every
   * combination that passes.
   */
  method GenerateAll(sons: seq<Phoneme>, nuclei: seq<string>) returns (valid: seq<string>)
    ensures valid == Syllables(sons, nuclei)
  {
    var consonants := ConsonantDomain(sons);
    var liquids := LiquidDomain(sons);
    var combos := Tuples(consonants, liquids, nuclei, consonants);
    valid := [];
    var i := 0;
    while i < |combos|
      invariant 0 <= i <= |combos|
      invariant valid == Kept(combos[..i])
    {
      var t := combos[i];
      if IsValid(t.onset, t.liquid, t.nucleus, t.coda) {
        valid := valid + [SlotText(t.onset) + SlotText(t.liquid) + t.nucleus + SlotText(t.coda)];
      }
      KeptStep(combos, i);
      i := i + 1;
    }
    assert combos[..i] == combos;
  }
}
