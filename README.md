# Conlang syllable enumerator, modelled in Dafny

`main.py` lists every syllable a constructed language allows. It works in five steps:

1. It declares a phoneme record, `Fonema`.
2. It writes out a base inventory `sons` of nineteen consonants and semivowels.
3. It builds consonant clusters from two tables (`bi_lista`, `tri_lista`) with `criar_mistura` and stores each one in `sons`.
4. It derives the vowel nuclei `vogais_finais` from an openness ranking: simple vowels, falling diphthongs and nasalised forms marked by a combining tilde.
5. `gerar_tudo` walks every combination of onset consonant, liquid, nucleus and coda consonant, in order. It keeps the combinations that `validar_silaba` accepts and concatenates their symbols.

The Dafny project models each step in the form the script uses:

- `phoneme.dfy` (module `Phonemes`): the record `Fonema` as the datatype `Phoneme`. Its category tag is a closed variant: `Consonant` for 'C', `Semivowel` for 'S', `Cluster` for 'C_MISTA'. Its place is an optional `Place`.
- `registry.dfy` (module `Registry`): the dictionary `sons`, as a sequence of phonemes in insertion order keyed by symbol.
  - `Lookup` is the read `sons[key]`.
  - `Put` is the assignment `sons[key] = value`: it replaces an existing key in place, or appends a new one.
  - `MakeCluster` is `criar_mistura`.
  - `RegisterClusters` is the insertion loop, run as a loop and proved equal to the fold `InsertAll`.
- `inventory.dfy` (module `SoundInventory`): the concrete tables and the inventory the loop leaves behind.
- `nuclei.dfy` (module `Nuclei`): the nested loops that fill `vogais_finais`, as methods proved equal to a functional specification, plus the shape and distinctness properties.
- `validator.dfy` (module `Validator`): `validar_silaba` as a function, with its three rules stated positively.
- `inventory_rules.dfy` (module `InventoryRules`): what the rules make of the 32 concrete clusters.
- `generator.dfy` (module `Generator`):
  - the two slot domains;
  - the four-way product in enumeration order;
  - the filter-and-concatenate specification `Syllables`;
  - the loop of `gerar_tudo` as the method `GenerateAll`.
- `syllabary.dfy` (module `Syllabary`): the script's run. It registers the clusters, builds the nuclei and enumerates the syllables.

## Model

| member | source | states |
|---|---|---|
| Registry.Lookup | main.py:47 | Reading a key that is present returns an entry of the dictionary that carries that key. |
| Registry.LookupUnique | main.py:47 | When keys are unique, the entry read under a key is the one entry holding it. |
| Registry.LookupPrefix | main.py:55-57 | Entries stored after a key do not change what that key reads. |
| Registry.Put | main.py:57 | Assignment adds exactly the stored key to the key set. A key not yet present is appended at the end. |
| Registry.PutOverwrites | main.py:57 | Assigning to a present key replaces that entry in place. The length and every other entry are unchanged, and keys stay unique. |
| Registry.PutKeepsUnique | main.py:57 | Assignment keeps keys unique, and the stored key reads back the stored value. |
| Registry.Join | main.py:48 | `"".join(letters)` begins with the first letter. |
| Registry.MakeCluster | main.py:46-50 | The cluster's symbol is the concatenation of the letters and its category is 'C_MISTA'. Its place, sibilant, rhotic, nasal and liquid flags equal those of the first letter's entry. Its obstruent flag is false whatever the members are. |
| Registry.ClusterIgnoresLaterLetters | main.py:47-50 | Two clusters with the same first letter agree on everything but their symbol. |
| Registry.InsertAll | main.py:55-57 | The registration fold keeps every earlier key and keeps keys unique. |
| Registry.InsertAllRegistersEveryRow | main.py:55-57 | After the loop, every row's concatenation is a key of `sons`. |
| Registry.RegisterClusters | main.py:55-57 | The in-place loop over the rows leaves `sons` equal to the fold `InsertAll`. |
| Registry.InsertFreshAppends | main.py:55-57 | When no row's symbol equals a key or another row's symbol, the loop never overwrites. The result is the base followed by the clusters in table order, each built from the base. |
| SoundInventory.BaseInventory | main.py:23-43 | The hand-written part of `sons` has 19 entries, in dictionary order. |
| SoundInventory.PairTable | main.py:52 | `bi_lista` has 24 rows. |
| SoundInventory.TripleTable | main.py:53 | `tri_lista` has 8 rows. |
| SoundInventory.ClusterTable | main.py:55 | `bi_lista + tri_lista` has 32 rows. |
| SoundInventory.BaseKeysUnique | main.py:23-43 | No two hand-written entries share a symbol. |
| SoundInventory.BaseKeys | main.py:23-43 | The keys of the hand-written entries are exactly their 19 symbols. |
| SoundInventory.TablesWellFormed | main.py:47 | Every row of both tables is non-empty, and its first letter is a hand-written key, so `sons[letras[0]]` always finds an entry. |
| SoundInventory.TablesSpell | main.py:52-53 | Row k of the registration order spells the k-th cluster name. |
| SoundInventory.ClusterNamesNew | main.py:52-53 | No cluster symbol equals a hand-written symbol. |
| SoundInventory.ClusterNamesDistinct | main.py:52-53 | The 32 cluster symbols are pairwise different. |
| SoundInventory.TablesFresh | main.py:52-57 | No row's symbol is a base key, and no two rows spell the same symbol. |
| SoundInventory.InventoryLayout | main.py:55-57 | After the loop, `sons` is the 19 base entries, then the 24 `bi_lista` clusters and the 8 `tri_lista` clusters in table order. No entry is overwritten. |
| SoundInventory.InventoryKeepsBase | main.py:55-57 | Registering the clusters leaves every hand-written entry at its position. |
| SoundInventory.InventorySize | main.py:55-57 | The finished `sons` has 51 entries. |
| SoundInventory.InventoryUnique | main.py:55-57 | No two entries of the finished `sons` share a symbol. |
| SoundInventory.InventoryKeys | main.py:55-57 | Every hand-written symbol and every cluster symbol is a key of the finished `sons`. |
| SoundInventory.InventoryClusters | main.py:46-57 | Entry 19 + k of the finished `sons` is the cluster of row k. It is spelled by the row, is a non-obstruent cluster, and takes place, sibilance, rhoticity, nasality and liquidity from the base entry of its first letter. The contract also states that base entry `FirstLetterAt()[k]` is the one whose symbol is row k's first letter. |
| SoundInventory.ExampleRows | main.py:52-53 | Row 10 is `r t`, spelling `rt`. Row 27 is `ñ m n`, spelling `ñmn`. |
| Nuclei.AppendHead | main.py:63-64 | One outer pass starts by appending the simple vowel, then its tilde form exactly when the vowel is closed or back. |
| Nuclei.AppendPairs | main.py:65-68 | The inner loop appends, for each second vowel in order, the diphthong when openness falls strictly and neither vowel is `y`. It also appends the tilde form when the second vowel is closed or back. |
| Nuclei.BuildNuclei | main.py:61-68 | The nested append loops leave `vogais_finais` equal to the block-by-block specification `BlocksUpTo(vowels, vowels)`. |
| Nuclei.InBlock | main.py:63-68 | A string comes from one outer pass exactly when it is that pass's vowel, its tilde form, or a diphthong (with tilde when due) of that vowel with a second vowel. |
| Nuclei.BuiltHasShape | main.py:61-68 | Every nucleus has one of four shapes: a vowel; a closed or back vowel with tilde; a falling non-`y` pair; such a pair ending in a closed or back vowel, with tilde. No nucleus has three vowels. |
| Nuclei.ShapeIsBuilt | main.py:61-68 | Every string of one of the four shapes over the vowel list is a nucleus. |
| Nuclei.NucleusShape | main.py:61-68 | A string is a nucleus if and only if it has one of the four shapes. |
| Nuclei.NucleiDistinct | main.py:61-68 | Over a vowel list without repeats and without the tilde, no nucleus is produced twice. |
| Nuclei.AllNucleiListed | main.py:60-68 | `vogais_finais` is the 25 listed strings, in the order the loops append them. |
| Nuclei.AllNucleiFacts | main.py:60-68 | `vogais_finais` has 25 entries, all different. |
| Nuclei.FirstNucleus | main.py:63 | The first nucleus is the simple vowel `a`. |
| Validator.IsValid | main.py:71-83 | A syllable is accepted exactly when the nasal-onset rule, the onset-cluster rule and the coda-cluster rule all hold. |
| Validator.NucleusIgnored | main.py:71-83 | The verdict never depends on the nucleus. |
| Validator.SlotsIndependent | main.py:72-81 | A syllable passes exactly when it passes without its coda and its coda passes after a bare nucleus. |
| Validator.BareNucleusPasses | main.py:72-81 | With no onset and no coda, nothing is rejected. |
| Validator.SimpleOnset | main.py:72-77 | A simple consonant or semivowel onset is rejected only by the nasal rule. That happens exactly when the onset is nasal and the liquid slot holds something other than a semivowel. With the liquid slot empty, the rule never fires. |
| Validator.SimpleCoda | main.py:79-81 | A coda that is not a cluster never changes the verdict. |
| Validator.LiquidSlot | main.py:72-73 | A semivowel in the liquid slot never changes the verdict. A non-semivowel there is rejected exactly after a nasal onset. |
| Validator.SibilantCluster | main.py:75-81 | A sibilant cluster may open a syllable but never close one. |
| Validator.VelarNasalCluster | main.py:75-81 | The cluster `ñmn` may open a syllable but never close one, whatever its features. |
| Validator.LiquidCluster | main.py:75-81 | A non-sibilant cluster whose place is neither velar nor bilabial, other than `ñmn`, is rejected as an onset. As a coda it is accepted exactly when it is liquid. |
| InventoryRules.ClusterOnsets | main.py:75-77 | Among the 32 concrete clusters, exactly those whose first letter is `r` or `rh` may not open a syllable. |
| InventoryRules.ClusterCodas | main.py:79-81 | Among the 32 concrete clusters, exactly the `s`-initial ones and `ñmn` may not close a syllable. |
| InventoryRules.ClusterLiquids | main.py:88 | Among the 32 concrete clusters, exactly the `r`- and `rh`-initial ones inherit `liquida` and so enter the liquid slot. |
| InventoryRules.RtAndVelarNasal | main.py:75-81 | The concrete cluster `rt` may close a syllable but not open one. The concrete `ñmn` may open one but not close one. |
| InventoryRules.BaseNasals | main.py:24-26 | Among the hand-written entries, the nasals are exactly `m`, `n` and `ñ`. |
| InventoryRules.BaseLiquidSlot | main.py:35-42 | Among the hand-written entries, the semivowels are exactly `î`, `w`, `û`, and the liquids exactly `r`, `rh`. |
| Generator.ConsonantDomain | main.py:87 | `consoantes` is "absent" followed by every entry of `sons`, in order. |
| Generator.LiquidEntries | main.py:88 | The entries kept for the liquid slot are exactly the liquid or semivowel entries of `sons`. |
| Generator.LiquidDomain | main.py:88 | `liquidas` starts with "absent" and is no longer than `sons` plus one. |
| Generator.DomainMembers | main.py:87-88 | A slot value is in `consoantes` exactly when it is absent or an entry of `sons`. It is in `liquidas` exactly when it is absent or a liquid or semivowel entry. |
| Generator.TuplesLength | main.py:91 | The product has one combination per choice of the four slots: the product of the domain sizes. |
| Generator.TuplesAt | main.py:91 | Product order: the combination of the a-th onset, b-th liquid, c-th nucleus and d-th coda sits at mixed-radix position `a b c d`. The onset varies slowest and the coda fastest. |
| Generator.InTuples | main.py:91 | A combination is in the product exactly when each slot value is in its domain. |
| Generator.Passing | main.py:92 | The filtered combinations are exactly the passing ones, and there are no more of them than combinations. |
| Generator.KeptIsRenderedPassing | main.py:90-94 | The output has one string per passing combination, in product order. Each string is that combination's slot symbols concatenated, with an absent slot contributing nothing. |
| Generator.InKept | main.py:90-94 | A string is output exactly when some passing combination spells it. |
| Generator.SyllableMembers | main.py:86-95 | A string is produced exactly when some combination drawn from the domains passes `validar_silaba` and spells it. |
| Generator.NasalOnsetExcluded | main.py:72-73 | No kept combination has a nasal onset followed by a liquid-slot entry other than a semivowel. |
| Generator.SyllableCount | main.py:90-95 | There is no deduplication: the output length equals the number of passing combinations. It is at most the product of the four domain sizes. |
| Generator.LiquidSpelledTwice | main.py:88-94 | A non-cluster liquid consonant of `sons`, with any nucleus, is written out at two different positions: as onset before an empty liquid slot, and in the liquid slot after an empty onset. |
| Generator.GenerateAll | main.py:86-95 | The loop over the product that appends each passing combination's string returns exactly `Syllables(sons, nuclei)`. |
| Syllabary.RaTwice | main.py:86-95 | Over any inventory holding the base `r` and any nuclei including `a`, the output contains `ra` at two different positions. |
| Syllabary.ScriptHasRaTwice | main.py:35 | The script's finished `sons` holds the hand-written `r`, and `a` is one of its nuclei. |
| Syllabary.Run | main.py:55-98 | The script's run yields `Syllables` over the finished inventory and `vogais_finais`, and `ra` occurs twice in it. |

## Left out

- The two closing `print` calls and the `[100:110]` sample (main.py:99-100) are console output and are not modelled.
- The concrete number of syllables is not evaluated. The product has about a million combinations. The model proves the count and order properties for any inventory and nuclei instead.
- `__repr__` (main.py:19-20) appears only as "a phoneme contributes its symbol to the string" (`SlotText`).
- The unused field `modo` (main.py:12) and the `'V'` tag named only in a comment (main.py:10) are left out; nothing reads them.
- `itertools.product` is not modelled as a library. The product is the function `Tuples`, with its order and membership proved. `GenerateAll` is the loop over it.
- Python's truth test on a slot (`if c_on`) is modelled as "the slot is present". A `Fonema` object is always truthy.
- Registry.MakeCluster: its precondition, a registered first letter, stands for the `KeyError` that `sons[letras[0]]` would raise. `TablesWellFormed` proves every table row meets it, so the script never raises.
- The overwriting branch of the dictionary assignment is modelled (`Put`, `PutOverwrites`), but `InventoryLayout` proves the script never takes it.
- The script has no error handling of its own: storing a symbol that is already a key overwrites it silently, and an unregistered first letter would raise `KeyError`. The model follows the code: `Put` overwrites in place, and `MakeCluster` requires a registered first letter.
- Nuclei.Openness: outside the six simple vowels the model returns 0. The dictionary `abertura` would raise `KeyError` there, but the loops only read it at the six vowels.
- Generator.LiquidDomain: its own contract states only the first entry and a length bound. Membership in both directions is stated by `DomainMembers`.
- Syllabary.RaTwice: stated over any inventory and nuclei meeting its requirements, because evaluating the concrete output is out of reach. `ScriptHasRaTwice` shows the script's own tables meet them, and `Run` carries the conclusion for the script's actual output.
