/**
 * The vowel nuclei (`vogais_finais`): every simple vowel, its nasalised
 * form when it is closed or back, and every falling diphthong from a more
 * open to a less open vowel (leaving out `y`), nasalised when its second
 * vowel is closed or back.
 */
module Nuclei {

  /** The combining tilde (U+0303) appended to mark nasalisation. */
  const Tilde: char := '\U{0303}'

  /** `vogais_simples`, in the order the nuclei are built. */
  function Vowels(): seq<char> {
    ['a', 'e', 'o', 'i', 'u', 'y']
  }

  /**
   * `abertura`: the openness degree of each simple vowel. The table has an
   * entry for exactly the six simple vowels and is only read at them; any
   * other character gets 0 here.
   */
  function Openness(v: char): int {
    match v
    case 'a' => 3
    case 'e' => 2
    case 'o' => 2
    case 'i' => 1
    case 'u' => 1
    case 'y' => 1
    case _ => 0
  }

  /** `fechadas_ou_traseiras`: the vowels that take a nasalised form. */
  function ClosedOrBackVowels(): seq<char> {
    ['i', 'y', 'u', 'o']
  }

  predicate ClosedOrBack(v: char) {
    v in ClosedOrBackVowels()
  }

  /** The diphthong test: strictly falling openness, and `y` on neither side. */
  predicate Falls(v1: char, v2: char) {
    Openness(v1) > Openness(v2) && v1 != 'y' && v2 != 'y'
  }

  /** The simple vowel, then its nasalised form when it has one. */
  function Head(v: char): seq<string> {
    [[v]] + if ClosedOrBack(v) then [[v, Tilde]] else []
  }

  /** What the inner loop adds for the pair `v1`, `v2`. */
  function PairNuclei(v1: char, v2: char): seq<string> {
    if Falls(v1, v2) then [[v1, v2]] + (if ClosedOrBack(v2) then [[v1, v2, Tilde]] else []) else []
  }

  /** The inner loop over the second vowels `ws`, in order. */
  function PairsUpTo(v1: char, ws: seq<char>): seq<string> {
    if ws == [] then [] else PairsUpTo(v1, ws[..|ws| - 1]) + PairNuclei(v1, ws[|ws| - 1])
  }

  /** One pass of the outer loop, whose inner loop runs over `ws`. */
  function Block(v1: char, ws: seq<char>): seq<string> {
    Head(v1) + PairsUpTo(v1, ws)
  }

  /** The outer loop over the first vowels `vs`, in order, each inner loop running over `ws`. */
  function BlocksUpTo(vs: seq<char>, ws: seq<char>): seq<string> {
    if vs == [] then [] else BlocksUpTo(vs[..|vs| - 1], ws) + Block(vs[|vs| - 1], ws)
  }

  /** `vogais_finais` as the loops leave it: both loops run over `vogais_simples`. */
  function AllNuclei(): seq<string> {
    BlocksUpTo(Vowels(), Vowels())
  }

  lemma PairsStep(v1: char, ws: seq<char>, j: nat)
    requires j < |ws|
    ensures PairsUpTo(v1, ws[..j + 1]) == PairsUpTo(v1, ws[..j]) + PairNuclei(v1, ws[j])
  {
    assert ws[..j + 1][..j] == ws[..j];
  }

  lemma BlocksStep(vs: seq<char>, ws: seq<char>, i: nat)
    requires i < |vs|
    ensures BlocksUpTo(vs[..i + 1], ws) == BlocksUpTo(vs[..i], ws) + Block(vs[i], ws)
  {
    assert vs[..i + 1][..i] == vs[..i];
  }

  /** The start of one outer pass: the simple vowel, then its nasalised form when it has one. */
  method AppendHead(start: seq<string>, v1: char) returns (nuclei: seq<string>)
    ensures nuclei == start + Head(v1)
  {
    nuclei := start + [[v1]];
    if v1 in ClosedOrBackVowels() {
      nuclei := nuclei + [[v1, Tilde]];
    }
  }

  /**
   * The inner loop of `vogais_finais` for the first vowel `v1`: it appends
   * the diphthongs of `v1` with each second vowel of `vs`, in order.
   */
  method AppendPairs(start: seq<string>, v1: char, vs: seq<char>) returns (nuclei: seq<string>)
    ensures nuclei == start + PairsUpTo(v1, vs)
  {
    nuclei := start;
    var j := 0;
    while j < |vs|
      invariant 0 <= j <= |vs|
      invariant nuclei == start + PairsUpTo(v1, vs[..j])
    {
      var v2 := vs[j];
      ghost var before := nuclei;
      if Openness(v1) > Openness(v2) && v1 != 'y' && v2 != 'y' {
        nuclei := nuclei + [[v1, v2]];
        if v2 in ClosedOrBackVowels() {
          nuclei := nuclei + [[v1, v2, Tilde]];
        }
      }
      assert nuclei == before + PairNuclei(v1, v2);
      PairsStep(v1, vs, j);
      assert start + PairsUpTo(v1, vs[..j]) + PairNuclei(v1, v2) == start + (PairsUpTo(v1, vs[..j]) + PairNuclei(v1, v2));
      j := j + 1;
    }
    assert vs[..j] == vs;
  }

  /** One pass of the outer loop extends the nuclei of the first `i` vowels to the first `i + 1`. */
  lemma BlockAppended(vs: seq<char>, i: nat, done: seq<string>)
    requires i < |vs| && done == BlocksUpTo(vs[..i], vs)
    ensures done + Head(vs[i]) + PairsUpTo(vs[i], vs) == BlocksUpTo(vs[..i + 1], vs)
  {
    BlocksStep(vs, vs, i);
    assert done + Head(vs[i]) + PairsUpTo(vs[i], vs) == done + (Head(vs[i]) + PairsUpTo(vs[i], vs));
  }

  /** The nested loops that fill `vogais_finais`, both running over `vowels`. */
  method BuildNuclei(vowels: seq<char>) returns (nuclei: seq<string>)
    ensures nuclei == BlocksUpTo(vowels, vowels)
  {
    var vs := vowels;
    nuclei := [];
    var i := 0;
    while i < |vs|
      invariant 0 <= i <= |vs|
      invariant nuclei == BlocksUpTo(vs[..i], vs)
    {
      var v1 := vs[i];
      ghost var done := nuclei;
      nuclei := AppendHead(nuclei, v1);
      nuclei := AppendPairs(nuclei, v1, vs);
      BlockAppended(vs, i, done);
      i := i + 1;
    }
    assert vs[..i] == vs;
  }

  /** No element occurs twice. */
  predicate Distinct<T(==)>(s: seq<T>) {
    forall i, j | 0 <= i < j < |s| :: s[i] != s[j]
  }

  lemma DistinctAppend<T>(a: seq<T>, b: seq<T>)
    requires Distinct(a) && Distinct(b) && forall x | x in a :: x !in b
    ensures Distinct(a + b)
  {
    forall i, j | 0 <= i < j < |a + b| ensures (a + b)[i] != (a + b)[j] {
      if j >= |a| && i < |a| {
        assert (a + b)[i] in a && (a + b)[j] == b[j - |a|];
      }
    }
  }

  /**
   * The shape of a nucleus built over the vowel list `vs`: a simple vowel;
   * a closed or back vowel plus the tilde; a falling pair of vowels; or a
   * falling pair whose second vowel is closed or back, plus the tilde.
   */
  predicate IsNucleus(n: string, vs: seq<char>) {
    || (|n| == 1 && n[0] in vs)
    || (|n| == 2 && n[0] in vs && n[1] == Tilde && ClosedOrBack(n[0]))
    || (|n| == 2 && n[0] in vs && n[1] in vs && Falls(n[0], n[1]))
    || (|n| == 3 && n[0] in vs && n[1] in vs && n[2] == Tilde && Falls(n[0], n[1]) && ClosedOrBack(n[1]))
  }

  /** Every nucleus of the inner loop comes from one second vowel. */
  lemma {:induction false} PairsHaveSource(v1: char, ws: seq<char>, n: string)
    requires n in PairsUpTo(v1, ws)
    ensures exists k | 0 <= k < |ws| :: n in PairNuclei(v1, ws[k])
    decreases |ws|
  {
    assert ws != [];
    var init := ws[..|ws| - 1];
    assert PairsUpTo(v1, ws) == PairsUpTo(v1, init) + PairNuclei(v1, ws[|ws| - 1]);
    if n in PairsUpTo(v1, init) {
      PairsHaveSource(v1, init, n);
      var k :| 0 <= k < |init| && n in PairNuclei(v1, init[k]);
      assert init[k] == ws[k];
    } else {
      assert n in PairNuclei(v1, ws[|ws| - 1]);
    }
  }

  /** The inner loop keeps what every second vowel contributes. */
  lemma {:induction false} PairInPairs(v1: char, ws: seq<char>, k: nat, n: string)
    requires k < |ws| && n in PairNuclei(v1, ws[k])
    ensures n in PairsUpTo(v1, ws)
    decreases |ws|
  {
    var init := ws[..|ws| - 1];
    assert PairsUpTo(v1, ws) == PairsUpTo(v1, init) + PairNuclei(v1, ws[|ws| - 1]);
    if k < |init| {
      assert init[k] == ws[k];
      PairInPairs(v1, init, k, n);
    }
  }

  lemma InPairs(v1: char, ws: seq<char>, n: string)
    ensures n in PairsUpTo(v1, ws) <==> exists k | 0 <= k < |ws| :: n in PairNuclei(v1, ws[k])
  {
    if n in PairsUpTo(v1, ws) {
      PairsHaveSource(v1, ws, n);
    }
    if exists k | 0 <= k < |ws| :: n in PairNuclei(v1, ws[k]) {
      var k :| 0 <= k < |ws| && n in PairNuclei(v1, ws[k]);
      PairInPairs(v1, ws, k, n);
    }
  }

  /** Every nucleus of the outer loop comes from one first vowel. */
  lemma {:induction false} BlocksHaveSource(vs: seq<char>, ws: seq<char>, n: string)
    requires n in BlocksUpTo(vs, ws)
    ensures exists k | 0 <= k < |vs| :: n in Block(vs[k], ws)
    decreases |vs|
  {
    assert vs != [];
    var init := vs[..|vs| - 1];
    assert BlocksUpTo(vs, ws) == BlocksUpTo(init, ws) + Block(vs[|vs| - 1], ws);
    if n in BlocksUpTo(init, ws) {
      BlocksHaveSource(init, ws, n);
      var k :| 0 <= k < |init| && n in Block(init[k], ws);
      assert init[k] == vs[k];
    } else {
      assert n in Block(vs[|vs| - 1], ws);
    }
  }

  /** The outer loop keeps what every first vowel contributes. */
  lemma {:induction false} BlockInBlocks(vs: seq<char>, ws: seq<char>, k: nat, n: string)
    requires k < |vs| && n in Block(vs[k], ws)
    ensures n in BlocksUpTo(vs, ws)
    decreases |vs|
  {
    var init := vs[..|vs| - 1];
    assert BlocksUpTo(vs, ws) == BlocksUpTo(init, ws) + Block(vs[|vs| - 1], ws);
    if k < |init| {
      assert init[k] == vs[k];
      BlockInBlocks(init, ws, k, n);
    }
  }

  lemma InBlocks(vs: seq<char>, ws: seq<char>, n: string)
    ensures n in BlocksUpTo(vs, ws) <==> exists k | 0 <= k < |vs| :: n in Block(vs[k], ws)
  {
    if n in BlocksUpTo(vs, ws) {
      BlocksHaveSource(vs, ws, n);
    }
    if exists k | 0 <= k < |vs| :: n in Block(vs[k], ws) {
      var k :| 0 <= k < |vs| && n in Block(vs[k], ws);
      BlockInBlocks(vs, ws, k, n);
    }
  }

  /** A nucleus built for the first vowel `v1` over the second vowels `ws`. */
  lemma InBlock(v1: char, ws: seq<char>, n: string)
    ensures n in Block(v1, ws) <==>
      || n == [v1]
      || (ClosedOrBack(v1) && n == [v1, Tilde])
      || (|n| >= 2 && n[0] == v1 && n[1] in ws && Falls(v1, n[1])
          && (n == [v1, n[1]] || (ClosedOrBack(n[1]) && n == [v1, n[1], Tilde])))
  {
    InPairs(v1, ws, n);
    if n in PairsUpTo(v1, ws) {
      var k :| 0 <= k < |ws| && n in PairNuclei(v1, ws[k]);
    }
    if |n| >= 2 && n[0] == v1 && n[1] in ws && Falls(v1, n[1]) && (n == [v1, n[1]] || (ClosedOrBack(n[1]) && n == [v1, n[1], Tilde])) {
      var k :| 0 <= k < |ws| && ws[k] == n[1];
      assert n in PairNuclei(v1, ws[k]);
    }
  }

  lemma BuiltHasShape(vs: seq<char>, n: string)
    requires n in BlocksUpTo(vs, vs)
    ensures IsNucleus(n, vs)
  {
    InBlocks(vs, vs, n);
    var k :| 0 <= k < |vs| && n in Block(vs[k], vs);
    InBlock(vs[k], vs, n);
    assert vs[k] in vs;
  }

  lemma ShapeIsBuilt(vs: seq<char>, n: string)
    requires IsNucleus(n, vs)
    ensures n in BlocksUpTo(vs, vs)
  {
    var k :| 0 <= k < |vs| && vs[k] == n[0];
    if |n| == 1 {
      assert n == [vs[k]];
    } else if |n| == 2 {
      assert n == [vs[k], n[1]];
    } else {
      assert n == [vs[k], n[1], n[2]];
    }
    InBlock(vs[k], vs, n);
    InBlocks(vs, vs, n);
  }

  /** Exactly the strings of nucleus shape occur among the nuclei, in both directions. */
  lemma NucleusShape(vs: seq<char>, n: string)
    ensures n in BlocksUpTo(vs, vs) <==> IsNucleus(n, vs)
  {
    if n in BlocksUpTo(vs, vs) {
      BuiltHasShape(vs, n);
    }
    if IsNucleus(n, vs) {
      ShapeIsBuilt(vs, n);
    }
  }

  lemma {:induction false} PairsDistinct(v1: char, ws: seq<char>)
    requires Distinct(ws)
    ensures Distinct(PairsUpTo(v1, ws))
    decreases |ws|
  {
    if ws != [] {
      var init, last := ws[..|ws| - 1], ws[|ws| - 1];
      PairsDistinct(v1, init);
      forall x | x in PairsUpTo(v1, init) ensures x !in PairNuclei(v1, last) {
        InPairs(v1, init, x);
        var k :| 0 <= k < |init| && x in PairNuclei(v1, init[k]);
        assert init[k] == ws[k] && ws[k] != last;
      }
      DistinctAppend(PairsUpTo(v1, init), PairNuclei(v1, last));
    }
  }

  lemma BlockDistinct(v1: char, ws: seq<char>)
    requires Distinct(ws) && Tilde !in ws
    ensures Distinct(Block(v1, ws))
  {
    PairsDistinct(v1, ws);
    forall x | x in Head(v1) ensures x !in PairsUpTo(v1, ws) {
      InPairs(v1, ws, x);
    }
    DistinctAppend(Head(v1), PairsUpTo(v1, ws));
  }

  lemma {:induction false} BlocksDistinct(vs: seq<char>, ws: seq<char>)
    requires Distinct(vs) && Distinct(ws) && Tilde !in ws
    ensures Distinct(BlocksUpTo(vs, ws))
    decreases |vs|
  {
    if vs != [] {
      var init, last := vs[..|vs| - 1], vs[|vs| - 1];
      BlocksDistinct(init, ws);
      BlockDistinct(last, ws);
      forall x | x in BlocksUpTo(init, ws) ensures x !in Block(last, ws) {
        InBlocks(init, ws, x);
        var k :| 0 <= k < |init| && x in Block(init[k], ws);
        InBlock(init[k], ws, x);
        InBlock(last, ws, x);
        assert init[k] == vs[k] && vs[k] != last;
      }
      DistinctAppend(BlocksUpTo(init, ws), Block(last, ws));
    }
  }

  /** Over distinct vowels, none of them the tilde, no nucleus is produced twice. */
  lemma NucleiDistinct(vs: seq<char>)
    requires Distinct(vs) && Tilde !in vs
    ensures Distinct(BlocksUpTo(vs, vs))
  {
    BlocksDistinct(vs, vs);
  }

  /** The inner loop over a six-vowel list, written out vowel by vowel. */
  lemma PairsOfSix(v1: char, ws: seq<char>)
    requires |ws| == 6
    ensures PairsUpTo(v1, ws) == PairNuclei(v1, ws[0]) + PairNuclei(v1, ws[1]) + PairNuclei(v1, ws[2])
                                 + PairNuclei(v1, ws[3]) + PairNuclei(v1, ws[4]) + PairNuclei(v1, ws[5])
  {
    assert ws[..5][..4] == ws[..4] && ws[..4][..3] == ws[..3] && ws[..3][..2] == ws[..2];
    assert ws[..2][..1] == ws[..1] && ws[..1][..0] == [];
    assert PairsUpTo(v1, ws[..1]) == PairNuclei(v1, ws[0]);
    assert PairsUpTo(v1, ws[..2]) == PairNuclei(v1, ws[0]) + PairNuclei(v1, ws[1]);
    assert PairsUpTo(v1, ws[..3]) == PairNuclei(v1, ws[0]) + PairNuclei(v1, ws[1]) + PairNuclei(v1, ws[2]);
    assert PairsUpTo(v1, ws[..4]) == PairNuclei(v1, ws[0]) + PairNuclei(v1, ws[1]) + PairNuclei(v1, ws[2])
                                     + PairNuclei(v1, ws[3]);
    assert PairsUpTo(v1, ws[..5]) == PairNuclei(v1, ws[0]) + PairNuclei(v1, ws[1]) + PairNuclei(v1, ws[2])
                                     + PairNuclei(v1, ws[3]) + PairNuclei(v1, ws[4]);
  }

  /** The outer loop over a six-vowel list, written out vowel by vowel. */
  lemma BlocksOfSix(vs: seq<char>, ws: seq<char>)
    requires |vs| == 6
    ensures BlocksUpTo(vs, ws) == Block(vs[0], ws) + Block(vs[1], ws) + Block(vs[2], ws)
                                  + Block(vs[3], ws) + Block(vs[4], ws) + Block(vs[5], ws)
  {
    assert vs[..5][..4] == vs[..4] && vs[..4][..3] == vs[..3] && vs[..3][..2] == vs[..2];
    assert vs[..2][..1] == vs[..1] && vs[..1][..0] == [];
    assert BlocksUpTo(vs[..1], ws) == Block(vs[0], ws);
    assert BlocksUpTo(vs[..2], ws) == Block(vs[0], ws) + Block(vs[1], ws);
    assert BlocksUpTo(vs[..3], ws) == Block(vs[0], ws) + Block(vs[1], ws) + Block(vs[2], ws);
    assert BlocksUpTo(vs[..4], ws) == Block(vs[0], ws) + Block(vs[1], ws) + Block(vs[2], ws) + Block(vs[3], ws);
    assert BlocksUpTo(vs[..5], ws) == Block(vs[0], ws) + Block(vs[1], ws) + Block(vs[2], ws) + Block(vs[3], ws)
                                      + Block(vs[4], ws);
  }

  lemma BlockA()
    ensures Block('a', Vowels()) == ["a", "ae", "ao", "ao\U{0303}", "ai", "ai\U{0303}", "au", "au\U{0303}"]
  {
    PairsOfSix('a', Vowels());
  }

  lemma BlockE()
    ensures Block('e', Vowels()) == ["e", "ei", "ei\U{0303}", "eu", "eu\U{0303}"]
  {
    PairsOfSix('e', Vowels());
  }

  lemma BlockO()
    ensures Block('o', Vowels()) == ["o", "o\U{0303}", "oi", "oi\U{0303}", "ou", "ou\U{0303}"]
  {
    PairsOfSix('o', Vowels());
  }

  lemma BlockI()
    ensures Block('i', Vowels()) == ["i", "i\U{0303}"]
  {
    PairsOfSix('i', Vowels());
  }

  lemma BlockU()
    ensures Block('u', Vowels()) == ["u", "u\U{0303}"]
  {
    PairsOfSix('u', Vowels());
  }

  lemma BlockY()
    ensures Block('y', Vowels()) == ["y", "y\U{0303}"]
  {
    PairsOfSix('y', Vowels());
  }

  lemma Listing(a: seq<string>, e: seq<string>, o: seq<string>, i: seq<string>, u: seq<string>, y: seq<string>)
    requires a == ["a", "ae", "ao", "ao\U{0303}", "ai", "ai\U{0303}", "au", "au\U{0303}"]
    requires e == ["e", "ei", "ei\U{0303}", "eu", "eu\U{0303}"]
    requires o == ["o", "o\U{0303}", "oi", "oi\U{0303}", "ou", "ou\U{0303}"]
    requires i == ["i", "i\U{0303}"] && u == ["u", "u\U{0303}"] && y == ["y", "y\U{0303}"]
    ensures a + e + o + i + u + y == ["a", "ae", "ao", "ao\U{0303}", "ai", "ai\U{0303}", "au", "au\U{0303}",
     "e", "ei", "ei\U{0303}", "eu", "eu\U{0303}",
     "o", "o\U{0303}", "oi", "oi\U{0303}", "ou", "ou\U{0303}",
     "i", "i\U{0303}", "u", "u\U{0303}", "y", "y\U{0303}"]
  {
  }

  /** `vogais_finais` written out: the 25 nuclei in the order the loops append them. */
  lemma AllNucleiListed()
    ensures AllNuclei() == ["a", "ae", "ao", "ao\U{0303}", "ai", "ai\U{0303}", "au", "au\U{0303}",
     "e", "ei", "ei\U{0303}", "eu", "eu\U{0303}",
     "o", "o\U{0303}", "oi", "oi\U{0303}", "ou", "ou\U{0303}",
     "i", "i\U{0303}", "u", "u\U{0303}", "y", "y\U{0303}"]
  {
    var vs := Vowels();
    BlocksOfSix(vs, vs);
    BlockA();
    BlockE();
    BlockO();
    BlockI();
    BlockU();
    BlockY();
    Listing(Block('a', vs), Block('e', vs), Block('o', vs), Block('i', vs), Block('u', vs), Block('y', vs));
  }

  /** The first nucleus is the simple vowel `a`. */
  lemma FirstNucleus()
    ensures 0 < |AllNuclei()| && AllNuclei()[0] == "a"
  {
    AllNucleiListed();
  }

  /** `vogais_finais` has 25 entries, no two alike. */
  lemma AllNucleiFacts()
    ensures Distinct(AllNuclei())
    ensures |AllNuclei()| == 25
  {
    NucleiDistinct(Vowels());
    AllNucleiListed();
  }
}
