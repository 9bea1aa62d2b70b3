# FastImpute genotype pipeline in Dafny

This project models the deterministic core of FastImpute's browser pipeline and proves properties about it. The pipeline turns a 23andMe raw genotype export into per-chromosome feature vectors for the imputation models of the PRS313 breast-cancer panel. Three source files are modelled.

- `scripts/js/23andMe.js` (module `TwentyThreeAndMe`):
  - each reference identifier `chrN_pos_ref_alt[_PRS313]` is split on `_` to annotate its row;
  - the tab-separated genotype text is parsed, with comment lines and lines without an rsid dropped;
  - the reference rows are left-joined to the genotype records on the `chrN:pos` key;
  - each genotype is split into a maternal and a paternal allele;
  - a dosage is derived per allele against the alternate allele, and the two are summed, with JavaScript `NaN` propagation;
  - each record gets its feature names;
  - the unphased dosages are bucketed into the 22 chromosome maps, each with a `PRS313` and a `non_PRS313` sub-map.

  The `forEach` passes update the records in place. They are methods over an `array<Row>`, each proved against a per-record function. `createChromosomeWiseData` is a method with its two loops, proved against the function `Partition`.
- `scripts/js/main.js` (module `Simulation`): `simulateAlleleDosages` and `replaceNaNWithSimulation`, the Monte-Carlo step that replaces a missing dosage by one simulated from the SNP's minor-allele frequency. `Math.random` is an explicit stream of draws, read from a position given as input. The MAF is a number that has already been parsed.
- `scripts/js/load_model.js` (module `LoadModel`): `preprocessDataForChromosome`. It is a method with the source's `for...in` loop, proved against the function `Filtered`. That function selects the `chr{n}_..._combined` features of a bucket in key order, reading `null` as 0. The method returns `None` where the source returns `null`.

Three support modules model JavaScript behaviour the pipeline relies on:
- `JsStrings`:
  - `split` on one character;
  - `trim` with the ECMAScript white-space set;
  - `startsWith` and `endsWith`;
  - integer and `undefined` rendering inside template literals.
- `JsObjects`:
  - a dosage is `Known(n)` or `NaN`;
  - a property value is `Undefined`, `Null` or a number;
  - a plain object is a sequence of (key, value) pairs with distinct keys, in insertion order. This is exact for these objects, because no key the pipeline uses is an array index.
- `Wrappers`: `Option`.

Behaviour of the code worth knowing, which the model follows:
- A reference identifier with fewer parts is not dropped with a warning. Its missing parts become `undefined`: `chr_pos` reads `c:undefined`, and `Ref` or `Alt` is absent.
- A genotype line is not required to have exactly four fields. Extra fields are ignored and missing ones are `undefined`. The genotype is trimmed at both ends.
- Absent alleles are `null`, or `undefined` for the second letter of a one-letter genotype, and an empty alternate allele also gives `NaN`.
- Records whose prefix is not `chr1` to `chr22` are dropped without a warning.

## Model

| member | source | states |
|---|---|---|
| JsStrings.Split | scripts/js/23andMe.js:6 | `split` yields at least one piece, no piece contains the separator, and joining the pieces with the separator gives the input back |
| JsStrings.SplitJoin | scripts/js/23andMe.js:35 | splitting separator-free fields that were joined by the separator gives exactly those fields back |
| JsStrings.Trim | scripts/js/23andMe.js:40 | `trim` gives the infix of its input that starts after the leading white-space run and has only white space after it, and that infix neither starts nor ends with white space |
| JsStrings.TrimUnchanged | scripts/js/23andMe.js:40 | text without white space at either end is left as it is |
| JsStrings.NatToString | scripts/js/load_model.js:26 | the rendering of a chromosome number is decimal digits with no leading zero, and reading them back gives the number |
| JsStrings.NatToStringInjective | scripts/js/load_model.js:26 | distinct numbers render as distinct strings |
| JsObjects.Add | scripts/js/23andMe.js:82 | JavaScript `+` on dosages is `NaN` iff either operand is `NaN`, and otherwise the sum |
| JsObjects.IsNaN | scripts/js/main.js:15 | the global `isNaN` holds iff its argument converted to a number is `NaN`: it holds for `undefined` and `NaN`, and not for `null` or a count |
| JsObjects.Get | scripts/js/23andMe.js:110 | reading a property is absent iff the key is not among the object's keys, and otherwise gives that property's value |
| JsObjects.Put | scripts/js/load_model.js:31 | assigning a property keeps an existing key in its place, and appends a new key last |
| JsObjects.PutGet | scripts/js/23andMe.js:114 | after `d[k] = v`, reading `k` gives `v` and every other key reads as before |
| JsObjects.PutNewAppends | scripts/js/load_model.js:31 | assigning a key not yet present appends the property at the end |
| TwentyThreeAndMe.PartsAreSplit | scripts/js/23andMe.js:6 | an identifier has one decomposition into underscore-free parts joined by `_`, and it is the one `split('_')` returns |
| TwentyThreeAndMe.ExtractChrPos | scripts/js/23andMe.js:5-8 | for the parts of an identifier, the result is the first part, `:`, then the second part, or `undefined` when there is only one part |
| TwentyThreeAndMe.ExtractAltAllele | scripts/js/23andMe.js:11-14 | the alternate allele is present iff the identifier has at least four parts, and is then the fourth part |
| TwentyThreeAndMe.ExtractRefAllele | scripts/js/23andMe.js:17-20 | the reference allele is present iff the identifier has at least three parts, and is then the third part |
| TwentyThreeAndMe.ExtractPRS313Info | scripts/js/23andMe.js:23-26 | the panel flag is set iff the identifier has a fifth part and that part is exactly `PRS313` |
| TwentyThreeAndMe.AnnotateRow | scripts/js/23andMe.js:46-51 | for the parts `c_p_r_a[_t]` of the row's identifier, the `forEach` body sets `chr_pos` = `c:p` (`c:undefined` without a second part), `Ref` = third part and `Alt` = fourth part (each absent without one), and PRS313 iff the fifth part is exactly `PRS313`; nothing else changes |
| TwentyThreeAndMe.AnnotateIdentifier | scripts/js/23andMe.js:5-26 | for an identifier of underscore-free parts `c_p_r_a[_t]`, the annotations are `chr_pos` = `c:p` (`c:undefined` without a second part), `Ref` = third part, `Alt` = fourth part (absent without one), PRS313 iff the fifth part is exactly `PRS313`; nothing else changes |
| TwentyThreeAndMe.ReadData | scripts/js/23andMe.js:29-54 | the fetched reference rows become a fresh array of the same length whose every row is annotated in place from its identifier, and the genotype records are the parse of the text |
| TwentyThreeAndMe.ParseLine | scripts/js/23andMe.js:34-43 | the record of one line has tab-free rsid, chromosome and position, a genotype with no white space at either end, and the key `chr{chromosome}:{position}` built from its own fields (`undefined` for a missing one) |
| TwentyThreeAndMe.ParseLineOfFields | scripts/js/23andMe.js:35-42 | for a line with any number of tab fields: the rsid is the first field, a missing chromosome or position is `undefined`, the genotype is null iff there are fewer than four fields or the fourth is empty and is otherwise the trimmed fourth field, fields past the fourth are not read, and the key is `chr{chromosome}:{position}` |
| TwentyThreeAndMe.ParseJoinedFields | scripts/js/23andMe.js:35-42 | tab-free fields joined by tabs parse to the record of exactly those fields, whatever their number |
| TwentyThreeAndMe.ExtraFieldsIgnored | scripts/js/23andMe.js:35 | tab fields after the fourth never change the record of a line |
| TwentyThreeAndMe.ParseKeptLine | scripts/js/23andMe.js:32-44 | a non-comment line with a non-empty first field yields exactly one record, built from its fields as above, whatever their number |
| TwentyThreeAndMe.ParseAndmeData | scripts/js/23andMe.js:32-44 | the text gives no more records than it has `\n`-separated lines, and every record has a non-empty rsid |
| TwentyThreeAndMe.ParseJoinedLines | scripts/js/23andMe.js:32 | a text made of newline-free lines joined by `\n` parses to the records of exactly those lines, in order |
| TwentyThreeAndMe.ParseLines | scripts/js/23andMe.js:32-44 | no more records than lines; every record has a non-empty rsid and the key `chr{chromosome}:{position}` |
| TwentyThreeAndMe.ParseLinesAppend | scripts/js/23andMe.js:32-44 | parsing keeps line order: the records of two blocks of lines are those of the first block followed by those of the second |
| TwentyThreeAndMe.ParseLineDropped | scripts/js/23andMe.js:33-44 | a line yields no record iff it starts with `#`, is empty, or its first tab field is empty |
| TwentyThreeAndMe.ParseDataLine | scripts/js/23andMe.js:35-42 | a line `rsid<TAB>chromosome<TAB>position<TAB>genotype` yields exactly one record, with key `chr{chromosome}:{position}` and the trimmed genotype, or null for an empty genotype field |
| TwentyThreeAndMe.SingleLineRecord | scripts/js/23andMe.js:32-44 | a one-line text whose genotype is two letters that are not white space parses to the one record carrying that genotype |
| TwentyThreeAndMe.LastMatch | scripts/js/23andMe.js:58 | finds the last record with the key, or none iff no record has it |
| TwentyThreeAndMe.Index | scripts/js/23andMe.js:58 | the `Map` built from the records holds exactly the keys that occur, and maps each to the last record with that key |
| TwentyThreeAndMe.Spread | scripts/js/23andMe.js:59 | the object spread takes rsid, chromosome, position, genotype and `chr_pos` from the genotype record, and every other property from the reference row |
| TwentyThreeAndMe.JoinRow | scripts/js/23andMe.js:59 | the spread keeps the reference row and its key, and changes only rsid, chromosome, position and genotype. A row that no record matches stays as it is. Otherwise the row takes the fields of the last matching record |
| TwentyThreeAndMe.MergeData | scripts/js/23andMe.js:57-60 | the join has the length and order of the reference rows, and each row is joined as `JoinRow` states |
| TwentyThreeAndMe.MergeGainsGenotypeIff | scripts/js/23andMe.js:57-60 | a reference row gains genotype fields iff some genotype record has an equal `chr_pos` |
| TwentyThreeAndMe.WithAlleles | scripts/js/23andMe.js:64-67 | a non-empty genotype gives the maternal allele, its first letter. A genotype of two or more letters also gives the paternal allele, its second letter. Otherwise the allele is absent. Nothing else changes |
| TwentyThreeAndMe.CreateAlleleColumns | scripts/js/23andMe.js:63-69 | every record of the array, in place, is replaced by its version with alleles |
| TwentyThreeAndMe.CalcDosage | scripts/js/23andMe.js:72-75 | `NaN` iff the allele or the alternate allele is absent or the latter is empty; otherwise 1 iff they are equal and 0 iff they differ |
| TwentyThreeAndMe.WithDosages | scripts/js/23andMe.js:79-83 | the maternal and paternal dosages are `calcDosage` of each allele. The unphased dosage is their JavaScript sum: `NaN` iff one of them is, and otherwise their sum, between 0 and 2. Nothing else changes |
| TwentyThreeAndMe.ApplyDosageCalculation | scripts/js/23andMe.js:78-85 | every record of the array, in place, is replaced by its version with dosages |
| TwentyThreeAndMe.UnphasedCountsAltAlleles | scripts/js/23andMe.js:72-82 | for a two-letter genotype and a one-letter alternate allele, the unphased dosage is the number of alternate letters in the genotype, so a no-call `--` gives 0, not `NaN` |
| TwentyThreeAndMe.UnphasedNaNIff | scripts/js/23andMe.js:72-82 | the unphased dosage is `NaN` iff the alternate allele is absent or empty, or the genotype is absent or shorter than two letters |
| TwentyThreeAndMe.WithColumns | scripts/js/23andMe.js:89-94 | the three feature names share the stem `prefix_position_Ref_Alt`, then carry `_maternal`, `_paternal` or `_combined`, then `_PRS313` iff the record is in the panel; nothing else changes |
| TwentyThreeAndMe.CreatePhasedColumns | scripts/js/23andMe.js:88-96 | every record of the array, in place, is replaced by its named version |
| TwentyThreeAndMe.UnphasedColumnOfIdentifier | scripts/js/23andMe.js:93 | for a well-formed identifier, the unphased feature name is its first four parts joined by `_`, then `_combined`, then `_PRS313` iff the fifth part is `PRS313` |
| TwentyThreeAndMe.ChromosomeNames | scripts/js/23andMe.js:103-105 | the initial keys are `chr1` to `chr22`, in order |
| TwentyThreeAndMe.ChromosomeNameInjective | scripts/js/23andMe.js:104 | distinct chromosome numbers give distinct bucket names |
| TwentyThreeAndMe.EmptyBuckets | scripts/js/23andMe.js:103-105 | the first `n` iterations create the buckets `chr1` to `chr{n}` in order, each with two empty sub-maps |
| TwentyThreeAndMe.Store | scripts/js/23andMe.js:111-114 | the assignment leaves the other panel's sub-map untouched; in the chosen one the feature name keeps its place or is appended last, and reads back as the record's unphased dosage |
| TwentyThreeAndMe.StoreFrame | scripts/js/23andMe.js:114 | every other feature name of the chosen sub-map keeps its value |
| TwentyThreeAndMe.Insert | scripts/js/23andMe.js:108-116 | storing one record never changes the bucket keys, and a record whose prefix names no bucket changes nothing |
| TwentyThreeAndMe.InsertStores | scripts/js/23andMe.js:109-115 | the bucket the record's prefix names now holds the record stored in it, and every other bucket reads as before |
| TwentyThreeAndMe.Partition | scripts/js/23andMe.js:99-119 | whatever the records, the buckets are exactly `chr1` to `chr22`, in that order |
| TwentyThreeAndMe.PartitionLastWins | scripts/js/23andMe.js:108-116 | in bucket `chr{n}`, the sub-map chosen by the panel flag maps each feature name to the unphased dosage (`NaN` included) of the last record with that prefix, flag and name, and holds no other names |
| TwentyThreeAndMe.PartitionKeyOrder | scripts/js/23andMe.js:108-116 | in bucket `chr{n}`, the sub-map chosen by the panel flag lists the feature names of the records with that prefix and flag in the order each first occurs |
| TwentyThreeAndMe.PartitionDropsOtherPrefixes | scripts/js/23andMe.js:109-110 | a record whose prefix is not `chr1` to `chr22` leaves the buckets unchanged |
| TwentyThreeAndMe.CreateChromosomeWiseData | scripts/js/23andMe.js:99-119 | the two loops build exactly `Partition` of the records |
| TwentyThreeAndMe.ForEach | scripts/js/23andMe.js:64-68 | a `forEach` that updates records replaces every element by its update, in index order |
| TwentyThreeAndMe.Derive | scripts/js/23andMe.js:135-137 | the allele, dosage and naming passes keep the join key |
| TwentyThreeAndMe.DerivedRows | scripts/js/23andMe.js:133-137 | one record per reference row, in order, carrying a key; each is the row annotated, joined with the parsed genotype text, then derived |
| TwentyThreeAndMe.ReadAndMerge | scripts/js/23andMe.js:133-134 | `readData` then `mergeData` give a fresh array with one record per reference row, in order, each the annotated row joined with the parsed genotype text and carrying a key |
| TwentyThreeAndMe.DerivePasses | scripts/js/23andMe.js:135-137 | the three passes, run one after the other on the same array, leave every record derived |
| TwentyThreeAndMe.Process23andMeData | scripts/js/23andMe.js:130-141 | the pipeline returns the partition of the derived records of the reference rows and the genotype text, working on arrays of its own |
| TwentyThreeAndMe.DerivedColumnsAgree | scripts/js/23andMe.js:57-96 | the genotype text never changes a derived record's key, panel flag or feature name |
| TwentyThreeAndMe.FirstColumnsAgree | scripts/js/23andMe.js:108-114 | the first-occurrence feature names depend only on each record's prefix, panel flag and feature name |
| TwentyThreeAndMe.BucketKeysIndependentOfGenotypes | scripts/js/23andMe.js:130-141 | two genotype texts give every sub-map the same feature names in the same order, fixed by the reference rows alone |
| TwentyThreeAndMe.SingleSnpEndToEnd | scripts/js/23andMe.js:130-141 | reference SNP `c_p_r_a` and one genotype line with genotype `g`: the alleles are the letters of `g`, each dosage is 1 iff its letter is `a`, the unphased dosage counts the `a` letters in `g`, and the feature name is `c_p_r_a_combined`. For `chr1_1000_A_G` with `AG` this gives A, G, 0, 1, 1 |
| TwentyThreeAndMe.DeriveSnp | scripts/js/23andMe.js:63-96 | deriving a joined record with key `c:p`, alleles `r`/`a` and a two-letter genotype gives those alleles, dosages, unphased count and feature name `c_p_r_a_combined` |
| TwentyThreeAndMe.UnmatchedSnpIsNaN | scripts/js/23andMe.js:57-85 | a reference SNP that no genotype line matches ends with a `NaN` unphased dosage, not 0 |
| Simulation.SimulateAlleleDosages | scripts/js/main.js:5-10 | the dosage is at most 2; it is 0 iff neither draw falls below the frequency and 2 iff both do |
| Simulation.SimulateCountsDrawsBelow | scripts/js/main.js:6-8 | the dosage is the number of the two draws strictly below the frequency |
| Simulation.NonPositiveFrequencyGivesZero | scripts/js/main.js:6-7 | with draws in `[0, 1)`, a frequency of at most 0 gives dosage 0 |
| Simulation.FullFrequencyGivesTwo | scripts/js/main.js:6-7 | with draws in `[0, 1)`, a frequency of at least 1 gives dosage 2 |
| Simulation.SimulateMonotoneInFrequency | scripts/js/main.js:6-8 | for the same draws, a higher frequency never gives a lower dosage |
| Simulation.FindMaf | scripts/js/main.js:16 | `find` gives the first row whose `SNP` equals the key, or none iff no row has it |
| Simulation.ReplaceEntry | scripts/js/main.js:14-23 | the callback keeps the key, returns an entry it does not replace as it is, and gives a replaced entry the dosage simulated from the first matching row's frequency |
| Simulation.ReplaceNaNWithSimulation | scripts/js/main.js:13-24 | the map preserves the length |
| Simulation.ReplaceReadsDrawsInOrder | scripts/js/main.js:13-24 | entry `i` of the result is the callback on entry `i`, reading two draws that start after the two of each replaced entry before it |
| Simulation.ReplaceKeepsKeys | scripts/js/main.js:14-23 | keys never change, an entry that is not replaced is returned unchanged, and an entry still `NaN` afterwards has no MAF row |
| Simulation.DrawsAreDisjoint | scripts/js/main.js:18-19 | replaced entries read disjoint pairs of draws: a later one starts at least two draws after an earlier one, and no later than the block of draws the whole map uses |
| Simulation.DrawsInsideBlock | scripts/js/main.js:18-19 | both draws of every replaced entry, the last one included, lie inside the block of draws the whole map uses |
| Simulation.NothingLeftToReplace | scripts/js/main.js:15-21 | after one pass no entry is left that the callback would replace |
| Simulation.ReplaceIdempotent | scripts/js/main.js:13-24 | a second pass, with any draws, returns the result of the first unchanged |
| Simulation.ReplacedValuesAreDosages | scripts/js/main.js:15-19 | whatever the draws, a replaced value is a known dosage in `{0, 1, 2}` |
| LoadModel.NullToZero | scripts/js/load_model.js:31 | `null` becomes 0, and every other value, `NaN` included, passes unchanged |
| LoadModel.Filtered | scripts/js/load_model.js:29-33 | the object the loop builds is no larger than its input, and its keys are keys of the input |
| LoadModel.FilteredKeys | scripts/js/load_model.js:29-33 | its keys are exactly the input keys that start with `chr{n}_` and end with `_combined` |
| LoadModel.QualifyingValuesInKeyOrder | scripts/js/load_model.js:29-35 | the output length is the number of qualifying keys. Entry `j` belongs to a qualifying key, and its value is that key's input value with `null` read as 0 |
| LoadModel.FilteredAppend | scripts/js/load_model.js:29-33 | extraction distributes over concatenation, so the output follows the input key order |
| LoadModel.EmptyIffNoneQualifies | scripts/js/load_model.js:35-42 | the extraction is empty iff no key qualifies |
| LoadModel.PreprocessDataForChromosome | scripts/js/load_model.js:25-45 | the result is `null` iff no key qualifies for `chr{n}_`, and otherwise is the qualifying values in key order |
| LoadModel.Prs313KeysExcluded | scripts/js/load_model.js:30 | a `_combined_PRS313` key never qualifies |
| LoadModel.PrefixesDisjoint | scripts/js/load_model.js:26-30 | a key carries the prefix of at most one chromosome, so `chr1_` never picks up `chr10` to `chr19` keys |

## Left out

- I/O: the d3 `csv` fetch of the reference table, `readAndmeFile` (FileReader), the MAF CSV fetch and `Papa.parse`. The reference rows, the genotype text and the MAF rows are inputs.
- The reference table's other CSV columns: a reference row carries only its `matching_columns` identifier.
- `loadAllModels`, `makePredictions`, `imputePRS313` and the DOM listener: the ONNX runtime, global model state and UI glue. The glue also passes values of the wrong shape between the modelled functions, and that composition is not modelled.
- `alert` and `console` output: the `null` result of `preprocessDataForChromosome` is modelled, the message is not.
- Identifiers whose prefix is an `Object.prototype` property name such as `constructor` or `__proto__`: in the source `chromosomeData[chromosome]` is then truthy (scripts/js/23andMe.js:110), its `PRS313` or `non_PRS313` property is `undefined`, the assignment at line 114 throws a `TypeError`, and the promise of `process23andMeData` rejects. The model takes the object to hold only its own properties, so such a record is dropped like any other prefix that names no bucket.
- Strings are sequences of Unicode code points, while `d.genotype[0]` and `d.genotype[1]` (scripts/js/23andMe.js:65-66) index UTF-16 code units; the two differ for genotype text outside the Basic Multilingual Plane.
- Simulation.SimulateAlleleDosages: `parseFloat` is taken as already applied, and a `NaN` frequency is not modelled.
- Simulation.ReplaceNaNWithSimulation: `Math.random` is a given stream of draws, and the model proves nothing about distributions, such as convergence to `f²`.
- TwentyThreeAndMe.ForEach: the source's `forEach` passes return the same array object. The model keeps the array but does not track that identity.
- Score aggregation with effect weights, summary statistics and histograms: none of these is part of this model.
