/**
 * The 23andMe genotype-to-dosage pipeline: parse the raw genotype export,
 * annotate the reference rows from their `chrN_pos_ref_alt[_PRS313]`
 * identifiers, left-join the two on the `chrN:pos` key, split genotypes
 * into maternal and paternal alleles, derive dosages against the alternate
 * allele, name each feature and bucket the features by chromosome and by
 * PRS313 panel membership.
 */
module TwentyThreeAndMe {
  import opened Wrappers
  import opened JsStrings
  import opened JsObjects

  /**
   * One record as the pipeline grows it. The source works on plain
   * objects that gain properties step by step; a property not set yet, set
   * to `undefined` or set to `null` is `None` (or `Undefined` for dosages).
   * `prs313` stands for the `PRS313` property, which is only ever the string
   * 'PRS313' (true) or `null`/absent (false).
   */
  datatype Row = Row(
    matchingColumns: string,
    chrPos: Option<string>,
    refAllele: Option<string>,
    altAllele: Option<string>,
    prs313: bool,
    rsid: Option<string>,
    chromosome: Option<string>,
    position: Option<string>,
    genotype: Option<string>,
    maternalAllele: Option<char>,
    paternalAllele: Option<char>,
    maternalDosage: Value,
    paternalDosage: Value,
    unphasedDosage: Value,
    phasedColumnMaternal: Option<string>,
    phasedColumnPaternal: Option<string>,
    unphasedColumn: Option<string>)

  /** A reference-table row as the CSV reader delivers it: only its `matching_columns` identifier. */
  function ReferenceRow(matchingColumns: string): Row
  {
    Row(matchingColumns, None, None, None, false, None, None, None, None,
        None, None, Undefined, Undefined, Undefined, None, None, None)
  }

  /** One line of the genotype export: `rsid`, `chromosome`, `position`, `genotype` and the join key. */
  datatype GenotypeRecord = GenotypeRecord(
    rsid: string,
    chromosome: Option<string>,
    position: Option<string>,
    genotype: Option<string>,
    chrPos: string)

  // ---------------------------------------------------------------------
  // Reference identifiers
  // ---------------------------------------------------------------------

  /** `parts` are the `_`-separated parts of the identifier `value`. */
  predicate IsPartsOf(parts: seq<string>, value: string)
  {
    |parts| >= 1 && (forall i :: 0 <= i < |parts| ==> '_' !in parts[i]) && Join(parts, '_') == value
  }

  /** An identifier has exactly one decomposition into parts: the one `split('_')` gives. */
  lemma PartsAreSplit(value: string)
    ensures forall parts :: IsPartsOf(parts, value) ==> parts == Split(value, '_')
  {
    forall parts | IsPartsOf(parts, value)
      ensures parts == Split(value, '_')
    {
      SplitJoin(parts, '_');
    }
  }

  /** `extractChrPos`: the first part, `:`, then the second part (`undefined` when there is none). */
  function ExtractChrPos(value: string): (chrPos: string)
    ensures forall parts :: IsPartsOf(parts, value) ==> chrPos == parts[0] + ":" + JsStr(At(parts, 1))
  {
    PartsAreSplit(value);
    var parts := Split(value, '_');
    parts[0] + ":" + JsStr(At(parts, 1))
  }

  /** `extractAltAllele`: the fourth part, absent when there is none. */
  function ExtractAltAllele(value: string): (alt: Option<string>)
    ensures forall parts :: IsPartsOf(parts, value) ==> (alt.Some? <==> |parts| >= 4)
    ensures forall parts :: IsPartsOf(parts, value) && |parts| >= 4 ==> alt == Some(parts[3])
  {
    PartsAreSplit(value);
    At(Split(value, '_'), 3)
  }

  /** `extractRefAllele`: the third part, absent when there is none. */
  function ExtractRefAllele(value: string): (ref: Option<string>)
    ensures forall parts :: IsPartsOf(parts, value) ==> (ref.Some? <==> |parts| >= 3)
    ensures forall parts :: IsPartsOf(parts, value) && |parts| >= 3 ==> ref == Some(parts[2])
  {
    PartsAreSplit(value);
    At(Split(value, '_'), 2)
  }

  /** `extractPRS313Info`: set iff the fifth part is exactly `PRS313`. */
  function ExtractPRS313Info(value: string): (inPanel: bool)
    ensures forall parts :: IsPartsOf(parts, value) ==> (inPanel <==> |parts| >= 5 && parts[4] == "PRS313")
  {
    PartsAreSplit(value);
    At(Split(value, '_'), 4) == Some("PRS313")
  }

  /**
   * What `readData` sets on each reference row from its identifier
   * `c_p_r_a[_t...]`: `chr_pos` `c:p`, `Ref` `r`, `Alt` `a` (each absent
   * when its part is missing) and the PRS313 flag iff the fifth part is
   * exactly `PRS313`; nothing else about the row changes.
   */
  function AnnotateRow(d: Row): (r: Row)
    ensures forall parts :: IsPartsOf(parts, d.matchingColumns) ==>
              r == d.(chrPos := Some(parts[0] + ":" + JsStr(At(parts, 1))),
                      refAllele := At(parts, 2),
                      altAllele := At(parts, 3),
                      prs313 := |parts| >= 5 && parts[4] == "PRS313")
  {
    d.(chrPos := Some(ExtractChrPos(d.matchingColumns)),
       altAllele := ExtractAltAllele(d.matchingColumns),
       refAllele := ExtractRefAllele(d.matchingColumns),
       prs313 := ExtractPRS313Info(d.matchingColumns))
  }

  /**
   * For an identifier made of underscore-free parts `c_p_r_a[_t...]`, the
   * annotated row has `chr_pos` `c:p`, `Ref` `r`, `Alt` `a` (absent when
   * there is no fourth part) and the PRS313 flag iff the fifth part is
   * exactly `PRS313`; nothing else about the row changes.
   */
  lemma AnnotateIdentifier(d: Row, parts: seq<string>)
    requires |parts| >= 1
    requires forall i :: 0 <= i < |parts| ==> '_' !in parts[i]
    requires d.matchingColumns == Join(parts, '_')
    ensures AnnotateRow(d) == d.(chrPos := Some(parts[0] + ":" + JsStr(At(parts, 1))),
                                 refAllele := At(parts, 2),
                                 altAllele := At(parts, 3),
                                 prs313 := |parts| >= 5 && parts[4] == "PRS313")
  {
    SplitJoin(parts, '_');
  }

  // ---------------------------------------------------------------------
  // Genotype text
  // ---------------------------------------------------------------------

  /**
   * The record `readData` builds from one tab-separated line. Its fields
   * hold no tab, its genotype has no white space at either end, and its
   * key is built from its own chromosome and position.
   */
  function ParseLine(line: string): (record: GenotypeRecord)
    ensures '\t' !in record.rsid
    ensures record.chromosome.Some? ==> '\t' !in record.chromosome.value
    ensures record.position.Some? ==> '\t' !in record.position.value
    ensures record.genotype.Some? ==>
              var g := record.genotype.value;
              g == [] || (!IsWhitespace(g[0]) && !IsWhitespace(g[|g| - 1]))
    ensures record.chrPos == "chr" + JsStr(record.chromosome) + ":" + JsStr(record.position)
  {
    var fields := Split(line, '\t');
    var chromosome := At(fields, 1);
    var position := At(fields, 2);
    var genotype := if |fields| > 3 && fields[3] != "" then Some(Trim(fields[3])) else None;
    GenotypeRecord(fields[0], chromosome, position, genotype,
                   "chr" + JsStr(chromosome) + ":" + JsStr(position))
  }

  /** A line survives both filters: it is no comment and its rsid is not empty. */
  predicate Kept(line: string)
  {
    !StartsWith(line, "#") && ParseLine(line).rsid != ""
  }

  /**
   * The filter-map-filter chain over the lines: one record per kept line,
   * in line order.
   */
  function ParseLines(lines: seq<string>): (records: seq<GenotypeRecord>)
    ensures |records| <= |lines|
    ensures forall i :: 0 <= i < |records| ==>
              records[i].rsid != "" &&
              records[i].chrPos == "chr" + JsStr(records[i].chromosome) + ":" + JsStr(records[i].position)
  {
    if lines == [] then []
    else
      var last := lines[|lines| - 1];
      ParseLines(lines[..|lines| - 1]) + if Kept(last) then [ParseLine(last)] else []
  }

  /**
   * The genotype half of `readData`: split the text into lines and parse
   * them. There are no more records than lines, and each has an rsid.
   */
  function ParseAndmeData(andmeDataContent: string): (records: seq<GenotypeRecord>)
    ensures |records| <= |Split(andmeDataContent, '\n')|
    ensures forall i :: 0 <= i < |records| ==> records[i].rsid != ""
  {
    ParseLines(Split(andmeDataContent, '\n'))
  }

  /** A text made of newline-free lines parses to the records of exactly those lines. */
  lemma ParseJoinedLines(lines: seq<string>)
    requires |lines| >= 1
    requires forall i :: 0 <= i < |lines| ==> '\n' !in lines[i]
    ensures ParseAndmeData(Join(lines, '\n')) == ParseLines(lines)
  {
    SplitJoin(lines, '\n');
  }

  /** Parsing keeps line order: the records of two blocks of lines are those of each block, in turn. */
  lemma {:induction false} ParseLinesAppend(a: seq<string>, b: seq<string>)
    ensures ParseLines(a + b) == ParseLines(a) + ParseLines(b)
  {
    if b != [] {
      var b' := b[..|b| - 1];
      var last := b[|b| - 1];
      var tail := if Kept(last) then [ParseLine(last)] else [];
      assert (a + b)[..|a + b| - 1] == a + b';
      assert (a + b)[|a + b| - 1] == last;
      assert ParseLines(a + b) == ParseLines(a + b') + tail;
      assert ParseLines(b) == ParseLines(b') + tail;
      ParseLinesAppend(a, b');
    } else {
      assert a + b == a;
    }
  }

  /**
   * A line yields no record iff it is a comment or its first tab field is
   * empty (it is empty or starts with a tab).
   */
  lemma ParseLineDropped(line: string)
    ensures ParseLines([line]) == [] <==> StartsWith(line, "#") || line == "" || line[0] == '\t'
  {
    assert ParseLines([line][..0]) == [];
    var fields := Split(line, '\t');
    if line != "" && line[0] == '\t' {
      assert IndexOf(line, '\t') == 0;
    } else if line != "" && '\t' in line {
      assert IndexOf(line, '\t') > 0;
    }
  }

  /**
   * A data line `rsid<TAB>chromosome<TAB>position<TAB>genotype` yields the
   * record with key `chr{chromosome}:{position}` and the trimmed genotype,
   * or a null genotype when that field is empty.
   */
  lemma ParseDataLine(rsid: string, chromosome: string, position: string, genotype: string)
    requires rsid != "" && rsid[0] != '#'
    requires '\t' !in rsid && '\t' !in chromosome && '\t' !in position && '\t' !in genotype
    ensures ParseLines([Join([rsid, chromosome, position, genotype], '\t')]) ==
            [GenotypeRecord(rsid, Some(chromosome), Some(position),
                            if genotype == "" then None else Some(Trim(genotype)),
                            "chr" + chromosome + ":" + position)]
  {
    var parts := [rsid, chromosome, position, genotype];
    var line := Join(parts, '\t');
    JoinStartsWithFirst(parts, '\t');
    SplitJoin(parts, '\t');
    ParseKeptLine(line, parts);
  }

  /**
   * A line that is no comment and whose first tab field is not empty yields
   * one record, whatever the number of its tab fields.
   */
  lemma ParseKeptLine(line: string, fields: seq<string>)
    requires Split(line, '\t') == fields
    requires fields[0] != "" && line[0] != '#'
    ensures ParseLines([line]) ==
            [GenotypeRecord(fields[0], At(fields, 1), At(fields, 2),
                            if |fields| >= 4 && fields[3] != "" then Some(Trim(fields[3])) else None,
                            "chr" + JsStr(At(fields, 1)) + ":" + JsStr(At(fields, 2)))]
  {
    ParseLineOfFields(line, fields);
    assert Kept(line);
    ParseSingleLine(line);
  }

  /**
   * The record of a line, read off its tab fields: the destructuring takes
   * the first four, a missing one is `undefined`, fields past the fourth
   * are ignored, and the genotype is null when it is missing or empty.
   */
  lemma ParseLineOfFields(line: string, fields: seq<string>)
    requires Split(line, '\t') == fields
    ensures |fields| >= 1
    ensures ParseLine(line).rsid == fields[0]
    ensures ParseLine(line).chromosome == At(fields, 1)
    ensures ParseLine(line).position == At(fields, 2)
    ensures ParseLine(line).genotype.None? <==> |fields| < 4 || fields[3] == ""
    ensures ParseLine(line).genotype.Some? ==> ParseLine(line).genotype.value == Trim(fields[3])
    ensures ParseLine(line).chrPos == "chr" + JsStr(At(fields, 1)) + ":" + JsStr(At(fields, 2))
  {
  }

  /**
   * Tab-free fields joined by tabs parse to the record of exactly those
   * fields: `undefined` for a missing chromosome or position, a null
   * genotype when there are fewer than four fields or the fourth is empty.
   */
  lemma ParseJoinedFields(fields: seq<string>)
    requires |fields| >= 1
    requires forall i :: 0 <= i < |fields| ==> '\t' !in fields[i]
    ensures ParseLine(Join(fields, '\t')) ==
            GenotypeRecord(fields[0], At(fields, 1), At(fields, 2),
                           if |fields| >= 4 && fields[3] != "" then Some(Trim(fields[3])) else None,
                           "chr" + JsStr(At(fields, 1)) + ":" + JsStr(At(fields, 2)))
  {
    SplitJoin(fields, '\t');
    ParseLineOfFields(Join(fields, '\t'), fields);
  }

  /** Tab fields after the fourth never change the record. */
  lemma ExtraFieldsIgnored(fields: seq<string>, extra: seq<string>)
    requires |fields| == 4
    requires forall i :: 0 <= i < |fields + extra| ==> '\t' !in (fields + extra)[i]
    ensures ParseLine(Join(fields + extra, '\t')) == ParseLine(Join(fields, '\t'))
  {
    var all := fields + extra;
    assert forall i :: 0 <= i < |fields| ==> fields[i] == all[i];
    ParseJoinedFields(fields);
    ParseJoinedFields(all);
  }

  /** A single line yields its record when it is kept, and nothing otherwise. */
  lemma ParseSingleLine(line: string)
    ensures ParseLines([line]) == if Kept(line) then [ParseLine(line)] else []
  {
    assert [line][..0] == [];
  }

  // ---------------------------------------------------------------------
  // Left join on chr_pos
  // ---------------------------------------------------------------------

  /** The index of the last record whose key is `key`: the one a `Map` built from the records keeps. */
  function LastMatch(recs: seq<GenotypeRecord>, key: string): (j: Option<nat>)
    ensures j.None? <==> forall i :: 0 <= i < |recs| ==> recs[i].chrPos != key
    ensures j.Some? ==> j.value < |recs| && recs[j.value].chrPos == key
    ensures j.Some? ==> forall i :: j.value < i < |recs| ==> recs[i].chrPos != key
  {
    if recs == [] then None
    else if recs[|recs| - 1].chrPos == key then Some(|recs| - 1)
    else LastMatch(recs[..|recs| - 1], key)
  }

  /**
   * `new Map(andmeData.map(d => [d.chr_pos, d]))`: each key present in the
   * records maps to the last record carrying it.
   */
  function Index(recs: seq<GenotypeRecord>): (m: map<string, GenotypeRecord>)
    ensures forall k :: k in m <==> LastMatch(recs, k).Some?
    ensures forall k :: k in m ==> m[k] == recs[LastMatch(recs, k).value]
  {
    if recs == [] then map[]
    else
      var prefix := recs[..|recs| - 1];
      var m := Index(prefix);
      IndexStep(recs, m);
      m[recs[|recs| - 1].chrPos := recs[|recs| - 1]]
  }

  /** Adding the last record to the index of the others indexes them all. */
  lemma IndexStep(recs: seq<GenotypeRecord>, m: map<string, GenotypeRecord>)
    requires recs != []
    requires forall k :: k in m <==> LastMatch(recs[..|recs| - 1], k).Some?
    requires forall k :: k in m ==> m[k] == recs[..|recs| - 1][LastMatch(recs[..|recs| - 1], k).value]
    ensures var m' := m[recs[|recs| - 1].chrPos := recs[|recs| - 1]];
            && (forall k :: k in m' <==> LastMatch(recs, k).Some?)
            && (forall k :: k in m' ==> m'[k] == recs[LastMatch(recs, k).value])
  {
    var prefix := recs[..|recs| - 1];
    var last := recs[|recs| - 1];
    var m' := m[last.chrPos := last];
    forall k
      ensures (k in m' <==> LastMatch(recs, k).Some?) && (k in m' ==> m'[k] == recs[LastMatch(recs, k).value])
    {
      if k != last.chrPos {
        assert LastMatch(recs, k) == LastMatch(prefix, k);
        if k in m {
          var j := LastMatch(prefix, k).value;
          assert recs[j] == prefix[j];
        }
      }
    }
  }

  /**
   * `{ ...d, ...g }`: the genotype record's five properties laid over the
   * reference row. Where both have a property the record's value wins;
   * every other property of the row is copied as it is.
   */
  function Spread(d: Row, g: GenotypeRecord): (r: Row)
    ensures r.rsid == Some(g.rsid) && r.chromosome == g.chromosome && r.position == g.position
    ensures r.genotype == g.genotype && r.chrPos == Some(g.chrPos)
    ensures r == d.(rsid := r.rsid, chromosome := r.chromosome, position := r.position,
                    genotype := r.genotype, chrPos := r.chrPos)
  {
    d.(rsid := Some(g.rsid), chromosome := g.chromosome, position := g.position,
       genotype := g.genotype, chrPos := Some(g.chrPos))
  }

  /**
   * The left join of one reference row, defined by a scan of the records:
   * the row gains the fields of the last record with an equal `chr_pos`,
   * and stays as it is when there is none. The reference-side fields never
   * change, and neither does the key.
   */
  function JoinRow(d: Row, recs: seq<GenotypeRecord>): (r: Row)
    ensures r.chrPos == d.chrPos
    ensures r == d.(rsid := r.rsid, chromosome := r.chromosome, position := r.position, genotype := r.genotype)
    ensures (forall j :: 0 <= j < |recs| ==> Some(recs[j].chrPos) != d.chrPos) ==> r == d
    ensures forall j :: 0 <= j < |recs| && Some(recs[j].chrPos) == d.chrPos &&
                        (forall i :: j < i < |recs| ==> Some(recs[i].chrPos) != d.chrPos) ==>
              r.rsid == Some(recs[j].rsid) && r.chromosome == recs[j].chromosome &&
              r.position == recs[j].position && r.genotype == recs[j].genotype
  {
    match d.chrPos
    case None => d
    case Some(k) =>
      match LastMatch(recs, k)
      case None => d
      case Some(j) => Spread(d, recs[j])
  }

  /**
   * `mergeData`: a left join of the reference rows with the genotype
   * records through a key index. Same length and order as the reference
   * rows; each row is joined as `JoinRow` says.
   */
  function MergeData(positionInfo: seq<Row>, andmeData: seq<GenotypeRecord>): (merged: seq<Row>)
    ensures |merged| == |positionInfo|
    ensures forall i :: 0 <= i < |merged| ==> merged[i] == JoinRow(positionInfo[i], andmeData)
  {
    var index := Index(andmeData);
    seq(|positionInfo|, i requires 0 <= i < |positionInfo| =>
      var d := positionInfo[i];
      if d.chrPos.Some? && d.chrPos.value in index then Spread(d, index[d.chrPos.value]) else d)
  }

  /**
   * A reference row (one that carries no rsid of its own) gains genotype
   * fields iff some genotype record has an equal `chr_pos`.
   */
  lemma MergeGainsGenotypeIff(positionInfo: seq<Row>, andmeData: seq<GenotypeRecord>, i: nat)
    requires i < |positionInfo| && positionInfo[i].rsid.None?
    ensures MergeData(positionInfo, andmeData)[i].rsid.Some? <==>
            exists j :: 0 <= j < |andmeData| && Some(andmeData[j].chrPos) == positionInfo[i].chrPos
  {
    var d := positionInfo[i];
    if exists j :: 0 <= j < |andmeData| && Some(andmeData[j].chrPos) == d.chrPos {
      var k := d.chrPos.value;
      var j := LastMatch(andmeData, k).value;
      assert Some(andmeData[j].chrPos) == d.chrPos;
    }
  }

  // ---------------------------------------------------------------------
  // Alleles and dosages
  // ---------------------------------------------------------------------

  /**
   * What `createAlleleColumns` sets on one row: the first and second
   * character of a non-empty genotype, or both null. A one-character
   * genotype leaves the paternal allele undefined. Nothing else changes.
   */
  function WithAlleles(d: Row): (r: Row)
    ensures r == d.(maternalAllele := r.maternalAllele, paternalAllele := r.paternalAllele)
    ensures r.maternalAllele.Some? <==> d.genotype.Some? && d.genotype.value != ""
    ensures r.paternalAllele.Some? <==> d.genotype.Some? && |d.genotype.value| >= 2
    ensures r.maternalAllele.Some? ==> r.maternalAllele.value == d.genotype.value[0]
    ensures r.paternalAllele.Some? ==> r.paternalAllele.value == d.genotype.value[1]
  {
    match d.genotype
    case Some(g) =>
      if g == "" then d.(maternalAllele := None, paternalAllele := None)
      else d.(maternalAllele := Some(g[0]), paternalAllele := if |g| >= 2 then Some(g[1]) else None)
    case None => d.(maternalAllele := None, paternalAllele := None)
  }

  /**
   * `calcDosage`: `NaN` when the allele or the alternate allele is absent
   * or empty; otherwise 1 when they are the same string and 0 when not.
   */
  function CalcDosage(allele: Option<char>, altAllele: Option<string>): (r: Dosage)
    ensures r.NaN? <==> allele.None? || altAllele.None? || altAllele.value == ""
    ensures r.Known? ==> (r.n == 1 <==> altAllele.value == [allele.value])
    ensures r.Known? ==> (r.n == 0 <==> altAllele.value != [allele.value])
  {
    if allele.None? || altAllele.None? || altAllele.value == "" then NaN
    else if [allele.value] == altAllele.value then Known(1)
    else Known(0)
  }

  /**
   * What `applyDosageCalculation` sets on one row: a dosage per parental
   * allele and their JavaScript sum, which is `NaN` as soon as either is,
   * and otherwise a count between 0 and 2.
   */
  function WithDosages(d: Row): (r: Row)
    ensures r == d.(maternalDosage := r.maternalDosage, paternalDosage := r.paternalDosage,
                    unphasedDosage := r.unphasedDosage)
    ensures r.maternalDosage == Number(CalcDosage(d.maternalAllele, d.altAllele))
    ensures r.paternalDosage == Number(CalcDosage(d.paternalAllele, d.altAllele))
    ensures r.unphasedDosage == Number(Add(r.maternalDosage.d, r.paternalDosage.d))
    ensures r.unphasedDosage.Number?
    ensures r.unphasedDosage.d.NaN? <==> r.maternalDosage.d.NaN? || r.paternalDosage.d.NaN?
    ensures r.unphasedDosage.d.Known? ==> 0 <= r.unphasedDosage.d.n <= 2
  {
    var maternal := CalcDosage(d.maternalAllele, d.altAllele);
    var paternal := CalcDosage(d.paternalAllele, d.altAllele);
    d.(maternalDosage := Number(maternal), paternalDosage := Number(paternal),
       unphasedDosage := Number(Add(maternal, paternal)))
  }

  /**
   * For a two-character genotype and a one-character alternate allele the
   * unphased dosage is the number of alternate alleles in the genotype.
   * A no-call `--` therefore counts 0, not `NaN`.
   */
  lemma UnphasedCountsAltAlleles(d: Row, g: string, alt: char)
    requires d.genotype == Some(g) && |g| == 2 && d.altAllele == Some([alt])
    ensures WithDosages(WithAlleles(d)).unphasedDosage == Number(Known(multiset(g)[alt]))
  {
    assert g == [g[0]] + [g[1]];
    assert multiset(g) == multiset([g[0]]) + multiset([g[1]]);
  }

  /**
   * With a usable alternate allele, the unphased dosage is `NaN` exactly
   * when the genotype is missing or shorter than two characters; without
   * one it is always `NaN`.
   */
  lemma UnphasedNaNIff(d: Row)
    ensures var u := WithDosages(WithAlleles(d)).unphasedDosage;
            u.Number? &&
            (u.d.NaN? <==> d.altAllele.None? || d.altAllele.value == "" ||
                           d.genotype.None? || |d.genotype.value| < 2)
  {
  }

  // ---------------------------------------------------------------------
  // Feature names
  // ---------------------------------------------------------------------

  /** `_PRS313` for panel SNPs, nothing otherwise. */
  function PanelSuffix(d: Row): string
  {
    if d.prs313 then "_PRS313" else ""
  }

  /** `${coordPrefix}_${position}_${d.Ref}_${d.Alt}` from `chr_pos` split on `:`. */
  function ColumnStem(d: Row): string
    requires d.chrPos.Some?
  {
    var coord := Split(d.chrPos.value, ':');
    coord[0] + "_" + JsStr(At(coord, 1)) + "_" + JsStr(d.refAllele) + "_" + JsStr(d.altAllele)
  }

  /**
   * What `createPhasedColumns` sets on one row: the three feature names,
   * which share one stem and differ only in their role tag. Nothing else
   * changes.
   */
  function WithColumns(d: Row): (r: Row)
    requires d.chrPos.Some?
    ensures r == d.(phasedColumnMaternal := r.phasedColumnMaternal,
                    phasedColumnPaternal := r.phasedColumnPaternal,
                    unphasedColumn := r.unphasedColumn)
    ensures r.unphasedColumn.Some? && r.phasedColumnMaternal.Some? && r.phasedColumnPaternal.Some?
    ensures r.unphasedColumn.value == ColumnStem(d) + "_combined" + PanelSuffix(d)
    ensures r.phasedColumnMaternal.value == ColumnStem(d) + "_maternal" + PanelSuffix(d)
    ensures r.phasedColumnPaternal.value == ColumnStem(d) + "_paternal" + PanelSuffix(d)
  {
    var stem := ColumnStem(d);
    var suffix := PanelSuffix(d);
    d.(phasedColumnMaternal := Some(stem + "_maternal" + suffix),
       phasedColumnPaternal := Some(stem + "_paternal" + suffix),
       unphasedColumn := Some(stem + "_combined" + suffix))
  }

  /**
   * For a row annotated from a well-formed identifier `c_p_r_a[_t]` (parts
   * free of `_`, the first two free of `:`), the unphased feature name is
   * the identifier's first four parts joined by `_`, then `_combined`, then
   * `_PRS313` iff the fifth part is `PRS313`. The allele and dosage steps in
   * between do not disturb it.
   */
  lemma UnphasedColumnOfIdentifier(d: Row, parts: seq<string>)
    requires 4 <= |parts| <= 5
    requires forall i :: 0 <= i < |parts| ==> '_' !in parts[i]
    requires ':' !in parts[0] && ':' !in parts[1]
    requires d.matchingColumns == Join(parts, '_')
    ensures WithColumns(WithDosages(WithAlleles(AnnotateRow(d)))).unphasedColumn ==
            Some(Join(parts[..4], '_') + "_combined" + (if |parts| == 5 && parts[4] == "PRS313" then "_PRS313" else ""))
  {
    AnnotateIdentifier(d, parts);
    var annotated := AnnotateRow(d);
    var a := WithDosages(WithAlleles(annotated));
    assert a.chrPos == annotated.chrPos && a.refAllele == annotated.refAllele && a.altAllele == annotated.altAllele;
    ColumnStemOfKey(a, parts[0], parts[1]);
    var four := parts[..4];
    JoinFour(four, '_');
    assert four[0] == parts[0] && four[1] == parts[1] && four[2] == parts[2] && four[3] == parts[3];
  }

  lemma JoinFour(parts: seq<string>, sep: char)
    requires |parts| == 4
    ensures Join(parts, sep) == parts[0] + [sep] + parts[1] + [sep] + parts[2] + [sep] + parts[3]
  {
    var t := parts[2..];
    assert parts[1..][1..] == t && t[1..] == [parts[3]];
    assert Join(t, sep) == parts[2] + [sep] + parts[3];
    assert Join(parts[1..], sep) == parts[1] + [sep] + Join(t, sep);
  }

  // ---------------------------------------------------------------------
  // Chromosome buckets
  // ---------------------------------------------------------------------

  /** One chromosome's features: `{ non_PRS313: {...}, PRS313: {...} }`. */
  datatype Bucket = Bucket(nonPrs313: Dict<Value>, prs313: Dict<Value>)

  /** The sub-map a record with the given panel flag goes to. */
  function SubMap(b: Bucket, panel: bool): Dict<Value>
  {
    if panel then b.prs313 else b.nonPrs313
  }

  /** `chr${i}`. */
  function ChromosomeName(i: nat): string
  {
    "chr" + NatToString(i)
  }

  lemma ChromosomeNameInjective(i: nat, j: nat)
    requires ChromosomeName(i) == ChromosomeName(j)
    ensures i == j
  {
    assert ChromosomeName(i)[3..] == NatToString(i);
    assert ChromosomeName(j)[3..] == NatToString(j);
    NatToStringInjective(i, j);
  }

  /** `chr1` ... `chr22`, in order. */
  function ChromosomeNames(): (names: seq<string>)
    ensures |names| == 22
    ensures forall i :: 0 <= i < 22 ==> names[i] == ChromosomeName(i + 1)
  {
    seq(22, i requires 0 <= i < 22 => ChromosomeName(i + 1))
  }

  /** The first `n` buckets the initialising loop creates, all empty. */
  function EmptyBuckets(n: nat): (r: Dict<Bucket>)
    requires n <= 22
    ensures Keys(r) == ChromosomeNames()[..n]
    ensures forall i :: 0 <= i < n ==> r[i].1 == Bucket([], [])
  {
    var r := seq(n, i requires 0 <= i < n => (ChromosomeName(i + 1), Bucket([], [])));
    assert DistinctKeys(r) by {
      forall i, j | 0 <= i < j < n
        ensures KeyAt(r, i) != KeyAt(r, j)
      {
        if KeyAt(r, i) == KeyAt(r, j) {
          ChromosomeNameInjective(i + 1, j + 1);
        }
      }
    }
    r
  }

  /** The part of `chr_pos` before its first `:`. */
  function Prefix(d: Row): string
    requires d.chrPos.Some?
  {
    Split(d.chrPos.value, ':')[0]
  }

  /**
   * `targetDict[d.unphased_column] = d.unphased_dosage` on the sub-map the
   * panel flag chooses: the other sub-map is untouched, the feature name
   * keeps its place or is appended, and reads back as the record's dosage.
   */
  function Store(b: Bucket, d: Row): (r: Bucket)
    ensures SubMap(r, !d.prs313) == SubMap(b, !d.prs313)
    ensures var key := JsStr(d.unphasedColumn);
            Keys(SubMap(r, d.prs313)) ==
              if key in Keys(SubMap(b, d.prs313)) then Keys(SubMap(b, d.prs313))
              else Keys(SubMap(b, d.prs313)) + [key]
    ensures Get(SubMap(r, d.prs313), JsStr(d.unphasedColumn)) == Some(d.unphasedDosage)
  {
    var key := JsStr(d.unphasedColumn);
    PutGet(SubMap(b, d.prs313), key, d.unphasedDosage, key);
    if d.prs313 then b.(prs313 := Put(b.prs313, key, d.unphasedDosage))
    else b.(nonPrs313 := Put(b.nonPrs313, key, d.unphasedDosage))
  }

  /** Storing a record leaves every other feature name of the chosen sub-map as it was. */
  lemma StoreFrame(b: Bucket, d: Row, k: string)
    requires k != JsStr(d.unphasedColumn)
    ensures Get(SubMap(Store(b, d), d.prs313), k) == Get(SubMap(b, d.prs313), k)
  {
    PutGet(SubMap(b, d.prs313), JsStr(d.unphasedColumn), d.unphasedDosage, k);
  }

  /**
   * One step of the population loop: a record whose prefix names a bucket
   * is stored there; any other record changes nothing. The bucket list
   * itself never changes shape.
   */
  function Insert(buckets: Dict<Bucket>, d: Row): (r: Dict<Bucket>)
    requires d.chrPos.Some?
    ensures Keys(r) == Keys(buckets)
    ensures Prefix(d) !in Keys(buckets) ==> r == buckets
  {
    match Get(buckets, Prefix(d))
    case None => buckets
    case Some(b) => Put(buckets, Prefix(d), Store(b, d))
  }

  /**
   * What one step writes: the bucket the record's prefix names now holds
   * the record stored in it, and every other bucket reads as before.
   */
  lemma InsertStores(buckets: Dict<Bucket>, d: Row, k: string)
    requires d.chrPos.Some?
    ensures Get(Insert(buckets, d), k) ==
            if k == Prefix(d) && Get(buckets, k).Some? then Some(Store(Get(buckets, k).value, d))
            else Get(buckets, k)
  {
    match Get(buckets, Prefix(d))
    case None =>
    case Some(b) =>
      PutGet(buckets, Prefix(d), Store(b, d), k);
  }

  /**
   * The dictionary `createChromosomeWiseData` has built once it has seen
   * `rows`. Its buckets are exactly `chr1` ... `chr22`, in that order,
   * whatever the records.
   */
  function Partition(rows: seq<Row>): (r: Dict<Bucket>)
    requires forall i :: 0 <= i < |rows| ==> rows[i].chrPos.Some?
    ensures Keys(r) == ChromosomeNames()
  {
    if rows == [] then EmptyBuckets(22)
    else Insert(Partition(rows[..|rows| - 1]), rows[|rows| - 1])
  }

  /** The value of the last record stored under `column` in the `panel` sub-map of bucket `name`, if any. */
  function LastStored(rows: seq<Row>, name: string, panel: bool, column: string): Option<Value>
    requires forall i :: 0 <= i < |rows| ==> rows[i].chrPos.Some?
  {
    if rows == [] then None
    else
      var d := rows[|rows| - 1];
      if Prefix(d) == name && d.prs313 == panel && JsStr(d.unphasedColumn) == column
      then Some(d.unphasedDosage)
      else LastStored(rows[..|rows| - 1], name, panel, column)
  }

  /**
   * What each bucket holds: in bucket `chr{n}` (1 <= n <= 22), the sub-map
   * chosen by the panel flag maps each feature name to the unphased dosage
   * of the LAST record with that prefix, flag and name, `NaN` included, and
   * holds no other names. Records with other prefixes leave no trace.
   */
  lemma {:induction false} PartitionLastWins(rows: seq<Row>, n: nat, panel: bool, column: string)
    requires forall i :: 0 <= i < |rows| ==> rows[i].chrPos.Some?
    requires 1 <= n <= 22
    ensures Get(Partition(rows), ChromosomeName(n)).Some?
    ensures Get(SubMap(Get(Partition(rows), ChromosomeName(n)).value, panel), column) ==
            LastStored(rows, ChromosomeName(n), panel, column)
  {
    var name := ChromosomeName(n);
    assert ChromosomeNames()[n - 1] == name;
    assert name in Keys(Partition(rows));
    if rows == [] {
      var b := EmptyBuckets(22);
      assert b[n - 1].0 == name;
    } else {
      var prev := rows[..|rows| - 1];
      var d := rows[|rows| - 1];
      PartitionLastWins(prev, n, panel, column);
      var p := Partition(prev);
      assert name in Keys(p);
      var b := Get(p, name).value;
      match Get(p, Prefix(d))
      case None =>
      case Some(b') =>
        PutGet(p, Prefix(d), Store(b', d), name);
        if Prefix(d) == name {
          var key := JsStr(d.unphasedColumn);
          if d.prs313 {
            PutGet(b.prs313, key, d.unphasedDosage, column);
          } else {
            PutGet(b.nonPrs313, key, d.unphasedDosage, column);
          }
        }
    }
  }

  /** A record whose prefix is not `chr1` ... `chr22` is dropped. */
  lemma PartitionDropsOtherPrefixes(rows: seq<Row>, d: Row)
    requires forall i :: 0 <= i < |rows| ==> rows[i].chrPos.Some?
    requires d.chrPos.Some? && Prefix(d) !in ChromosomeNames()
    ensures Partition(rows + [d]) == Partition(rows)
  {
    var all := rows + [d];
    assert all[..|all| - 1] == rows && all[|all| - 1] == d;
  }

  /**
   * The feature names of the records with prefix `name` and panel flag
   * `panel`, each at its first occurrence, in record order.
   */
  function FirstColumns(rows: seq<Row>, name: string, panel: bool): seq<string>
    requires forall i :: 0 <= i < |rows| ==> rows[i].chrPos.Some?
  {
    if rows == [] then []
    else
      var prev := FirstColumns(rows[..|rows| - 1], name, panel);
      var d := rows[|rows| - 1];
      var column := JsStr(d.unphasedColumn);
      if Prefix(d) == name && d.prs313 == panel && column !in prev then prev + [column] else prev
  }

  /**
   * The key order of each sub-map: in bucket `chr{n}`, the sub-map chosen
   * by the panel flag lists the feature names of the records with that
   * prefix and flag in the order they first occur; a later record with a
   * name already present keeps its place.
   */
  lemma {:induction false} PartitionKeyOrder(rows: seq<Row>, n: nat, panel: bool)
    requires forall i :: 0 <= i < |rows| ==> rows[i].chrPos.Some?
    requires 1 <= n <= 22
    ensures Get(Partition(rows), ChromosomeName(n)).Some?
    ensures Keys(SubMap(Get(Partition(rows), ChromosomeName(n)).value, panel)) ==
            FirstColumns(rows, ChromosomeName(n), panel)
  {
    var name := ChromosomeName(n);
    assert ChromosomeNames()[n - 1] == name;
    assert name in Keys(Partition(rows));
    if rows == [] {
      var b := EmptyBuckets(22);
      assert b[n - 1].0 == name;
    } else {
      var prev := rows[..|rows| - 1];
      var d := rows[|rows| - 1];
      PartitionKeyOrder(prev, n, panel);
      var p := Partition(prev);
      assert name in Keys(p);
      match Get(p, Prefix(d))
      case None =>
      case Some(b') =>
        PutGet(p, Prefix(d), Store(b', d), name);
    }
  }

  /**
   * `createChromosomeWiseData`: create the 22 empty buckets, then store
   * every record in turn.
   */
  method CreateChromosomeWiseData(data: array<Row>) returns (chromosomeData: Dict<Bucket>)
    requires forall i :: 0 <= i < data.Length ==> data[i].chrPos.Some?
    ensures chromosomeData == Partition(data[..])
  {
    chromosomeData := [];
    for i := 1 to 23
      invariant chromosomeData == EmptyBuckets(i - 1)
    {
      var name := ChromosomeName(i);
      EmptyBucketsStep(i);
      PutNewAppends(chromosomeData, name, Bucket([], []));
      chromosomeData := Put(chromosomeData, name, Bucket([], []));
    }
    for i := 0 to data.Length
      invariant chromosomeData == Partition(data[..i])
    {
      var d := data[i];
      PartitionStep(data[..], i);
      var chromosome := Split(d.chrPos.value, ':')[0];
      var target := Get(chromosomeData, chromosome);
      if target.Some? {
        chromosomeData := Put(chromosomeData, chromosome, Store(target.value, d));
      }
    }
    assert data[..] == data[..data.Length];
  }

  /** The initialising loop appends a bucket whose name is new. */
  lemma EmptyBucketsStep(i: nat)
    requires 1 <= i <= 22
    ensures ChromosomeName(i) !in Keys(EmptyBuckets(i - 1))
    ensures EmptyBuckets(i - 1) + [(ChromosomeName(i), Bucket([], []))] == EmptyBuckets(i)
  {
    var prev, next := EmptyBuckets(i - 1), EmptyBuckets(i);
    if ChromosomeName(i) in Keys(prev) {
      var j :| 0 <= j < i - 1 && Keys(prev)[j] == ChromosomeName(i);
      assert ChromosomeNames()[j] == ChromosomeName(j + 1);
      ChromosomeNameInjective(j + 1, i);
    }
    assert Keys(next)[i - 1] == ChromosomeNames()[i - 1];
    assert next == prev + [(ChromosomeName(i), Bucket([], []))] by {
      forall k | 0 <= k < i - 1
        ensures next[k] == prev[k]
      {
        assert Keys(next)[k] == ChromosomeNames()[k] == Keys(prev)[k];
      }
    }
  }

  /** Storing one more record is one `Insert` on the buckets built so far. */
  lemma PartitionStep(rows: seq<Row>, i: nat)
    requires forall j :: 0 <= j < |rows| ==> rows[j].chrPos.Some?
    requires i < |rows|
    ensures Partition(rows[..i + 1]) == Insert(Partition(rows[..i]), rows[i])
  {
    assert rows[..i + 1][..i] == rows[..i];
    assert rows[..i + 1][i] == rows[i];
  }

  // ---------------------------------------------------------------------
  // The passes that update the records in place, and their composition
  // ---------------------------------------------------------------------

  /**
   * `data.forEach(d => { ...set properties of d... })`: replace every
   * record, in index order, by its updated version.
   */
  method ForEach(data: array<Row>, update: Row --> Row)
    requires forall i :: 0 <= i < data.Length ==> update.requires(data[i])
    modifies data
    ensures forall i :: 0 <= i < data.Length ==> data[i] == update(old(data[i]))
  {
    for i := 0 to data.Length
      invariant forall j :: 0 <= j < i ==> data[j] == update(old(data[j]))
      invariant forall j :: i <= j < data.Length ==> data[j] == old(data[j])
    {
      data[i] := update(data[i]);
    }
  }

  /**
   * `readData` once the reference table has been fetched: the fetched rows
   * become a fresh array whose every row is annotated in place from its
   * identifier, and the genotype text is parsed.
   */
  method ReadData(referenceRows: seq<Row>, andmeDataContent: string)
    returns (positionInfo: array<Row>, andmeData: seq<GenotypeRecord>)
    ensures fresh(positionInfo)
    ensures positionInfo.Length == |referenceRows|
    ensures forall i :: 0 <= i < |referenceRows| ==> positionInfo[i] == AnnotateRow(referenceRows[i])
    ensures andmeData == ParseAndmeData(andmeDataContent)
  {
    positionInfo := new Row[|referenceRows|](i requires 0 <= i < |referenceRows| => referenceRows[i]);
    andmeData := ParseAndmeData(andmeDataContent);
    ForEach(positionInfo, AnnotateRow);
  }

  /** `createAlleleColumns`: set both alleles on every record, in place. */
  method CreateAlleleColumns(data: array<Row>)
    modifies data
    ensures forall i :: 0 <= i < data.Length ==> data[i] == WithAlleles(old(data[i]))
  {
    ForEach(data, WithAlleles);
  }

  /** `applyDosageCalculation`: set the three dosages on every record, in place. */
  method ApplyDosageCalculation(data: array<Row>)
    modifies data
    ensures forall i :: 0 <= i < data.Length ==> data[i] == WithDosages(old(data[i]))
  {
    ForEach(data, WithDosages);
  }

  /**
   * `createPhasedColumns`: set the three feature names on every record, in
   * place. Every record must carry a `chr_pos` (the source calls `split` on it).
   */
  method CreatePhasedColumns(data: array<Row>)
    requires forall i :: 0 <= i < data.Length ==> data[i].chrPos.Some?
    modifies data
    ensures forall i :: 0 <= i < data.Length ==> data[i] == WithColumns(old(data[i]))
  {
    ForEach(data, WithColumns);
  }

  /** One merged record after the allele, dosage and naming passes. */
  function Derive(d: Row): (r: Row)
    requires d.chrPos.Some?
    ensures r.chrPos == d.chrPos
  {
    WithColumns(WithDosages(WithAlleles(d)))
  }

  /**
   * The records `process23andMeData` hands to the partition step: the
   * annotated reference rows, left-joined with the parsed genotype text,
   * then derived. One record per reference row, in reference order.
   */
  function DerivedRows(positionInfo: seq<Row>, andmeDataContent: string): (rows: seq<Row>)
    ensures |rows| == |positionInfo|
    ensures forall i :: 0 <= i < |rows| ==> rows[i].chrPos.Some?
    ensures forall i :: 0 <= i < |rows| ==>
              AnnotateRow(positionInfo[i]).chrPos.Some? &&
              rows[i] == Derive(JoinRow(AnnotateRow(positionInfo[i]), ParseAndmeData(andmeDataContent)))
  {
    var records := ParseAndmeData(andmeDataContent);
    seq(|positionInfo|, i requires 0 <= i < |positionInfo| => Derive(JoinRow(AnnotateRow(positionInfo[i]), records)))
  }

  /**
   * The allele, dosage and naming passes of `process23andMeData`, one
   * after the other on the same array: each record ends up derived.
   */
  method DerivePasses(mergedData: array<Row>, ghost merged: seq<Row>)
    requires mergedData.Length == |merged|
    requires forall i :: 0 <= i < |merged| ==> mergedData[i] == merged[i] && merged[i].chrPos.Some?
    modifies mergedData
    ensures forall i :: 0 <= i < |merged| ==> mergedData[i] == Derive(merged[i])
  {
    CreateAlleleColumns(mergedData);
    ghost var withAlleles := mergedData[..];
    ApplyDosageCalculation(mergedData);
    assert forall i :: 0 <= i < mergedData.Length ==> mergedData[i] == WithDosages(withAlleles[i]);
    assert forall i :: 0 <= i < mergedData.Length ==> withAlleles[i] == WithAlleles(merged[i]);
    CreatePhasedColumns(mergedData);
  }

  /**
   * The first two steps of `process23andMeData`: `readData`, then
   * `mergeData`, whose `map` yields a fresh array of merged records, each
   * an annotated reference row joined with the parsed genotype text.
   */
  method ReadAndMerge(referenceRows: seq<Row>, andmeDataContent: string)
    returns (mergedData: array<Row>, ghost merged: seq<Row>)
    ensures fresh(mergedData)
    ensures mergedData.Length == |merged| == |referenceRows|
    ensures forall i :: 0 <= i < |merged| ==>
              mergedData[i] == merged[i] && merged[i].chrPos.Some? &&
              merged[i] == JoinRow(AnnotateRow(referenceRows[i]), ParseAndmeData(andmeDataContent))
  {
    var positionInfo, andmeData := ReadData(referenceRows, andmeDataContent);
    var rows := MergeData(positionInfo[..], andmeData);
    MergedRowsAreJoined(referenceRows, andmeDataContent, positionInfo[..], rows);
    mergedData := new Row[|rows|](i requires 0 <= i < |rows| => rows[i]);
    merged := rows;
  }

  /**
   * `process23andMeData` with the fetched reference rows as input: the
   * pipeline in order, the three middle passes on a fresh array of merged
   * records. Nothing the caller holds is changed.
   */
  method Process23andMeData(referenceRows: seq<Row>, andmeDataContent: string)
    returns (chromosomeWiseData: Dict<Bucket>)
    ensures chromosomeWiseData == Partition(DerivedRows(referenceRows, andmeDataContent))
  {
    var mergedData: array<Row>;
    ghost var merged: seq<Row>;
    mergedData, merged := ReadAndMerge(referenceRows, andmeDataContent);
    DerivePasses(mergedData, merged);
    DerivedRowsAre(referenceRows, andmeDataContent, merged, mergedData);
    chromosomeWiseData := CreateChromosomeWiseData(mergedData);
  }

  /** Each merged record is its annotated reference row joined with the parsed text, and so carries a `chr_pos`. */
  lemma MergedRowsAreJoined(original: seq<Row>, andmeDataContent: string, annotated: seq<Row>, merged: seq<Row>)
    requires |annotated| == |original| && forall i :: 0 <= i < |original| ==> annotated[i] == AnnotateRow(original[i])
    requires merged == MergeData(annotated, ParseAndmeData(andmeDataContent))
    ensures |merged| == |original|
    ensures forall i :: 0 <= i < |merged| ==>
              merged[i] == JoinRow(AnnotateRow(original[i]), ParseAndmeData(andmeDataContent)) && merged[i].chrPos.Some?
  {
  }

  /** Deriving every merged record gives `DerivedRows`. */
  lemma DerivedRowsAre(original: seq<Row>, andmeDataContent: string, merged: seq<Row>, derived: array<Row>)
    requires |merged| == |original|
    requires forall i :: 0 <= i < |merged| ==>
               merged[i] == JoinRow(AnnotateRow(original[i]), ParseAndmeData(andmeDataContent)) && merged[i].chrPos.Some?
    requires derived.Length == |merged| && forall i :: 0 <= i < |merged| ==> derived[i] == Derive(merged[i])
    ensures derived[..] == DerivedRows(original, andmeDataContent)
  {
  }

  /**
   * The genotype text never changes what the partition step reads to place
   * and name a record: the key, the panel flag and the feature name of each
   * derived record come from its reference row alone.
   */
  lemma DerivedColumnsAgree(positionInfo: seq<Row>, text1: string, text2: string, i: nat)
    requires i < |positionInfo|
    ensures var r1, r2 := DerivedRows(positionInfo, text1)[i], DerivedRows(positionInfo, text2)[i];
            r1.chrPos == r2.chrPos && r1.prs313 == r2.prs313 && r1.unphasedColumn == r2.unphasedColumn
  {
    var a := AnnotateRow(positionInfo[i]);
    var j1 := JoinRow(a, ParseAndmeData(text1));
    var j2 := JoinRow(a, ParseAndmeData(text2));
    assert j1.chrPos == j2.chrPos && j1.prs313 == j2.prs313;
    assert j1.refAllele == j2.refAllele && j1.altAllele == j2.altAllele;
    assert ColumnStem(WithDosages(WithAlleles(j1))) == ColumnStem(WithDosages(WithAlleles(j2)));
  }

  /** First-occurrence names depend only on each record's prefix, panel flag and feature name. */
  lemma {:induction false} FirstColumnsAgree(rows1: seq<Row>, rows2: seq<Row>, name: string, panel: bool)
    requires |rows1| == |rows2|
    requires forall i :: 0 <= i < |rows1| ==> rows1[i].chrPos.Some? && rows2[i].chrPos == rows1[i].chrPos
    requires forall i :: 0 <= i < |rows1| ==>
               rows1[i].prs313 == rows2[i].prs313 && rows1[i].unphasedColumn == rows2[i].unphasedColumn
    ensures FirstColumns(rows1, name, panel) == FirstColumns(rows2, name, panel)
  {
    if rows1 != [] {
      FirstColumnsAgree(rows1[..|rows1| - 1], rows2[..|rows2| - 1], name, panel);
    }
  }

  /**
   * The feature names of every sub-map, and their order, are fixed by the
   * reference rows: two genotype texts give the same keys, only the dosages
   * stored under them can differ.
   */
  lemma BucketKeysIndependentOfGenotypes(positionInfo: seq<Row>, text1: string, text2: string, n: nat, panel: bool)
    requires 1 <= n <= 22
    ensures Get(Partition(DerivedRows(positionInfo, text1)), ChromosomeName(n)).Some?
    ensures Get(Partition(DerivedRows(positionInfo, text2)), ChromosomeName(n)).Some?
    ensures Keys(SubMap(Get(Partition(DerivedRows(positionInfo, text1)), ChromosomeName(n)).value, panel)) ==
            Keys(SubMap(Get(Partition(DerivedRows(positionInfo, text2)), ChromosomeName(n)).value, panel))
  {
    var rows1, rows2 := DerivedRows(positionInfo, text1), DerivedRows(positionInfo, text2);
    forall i | 0 <= i < |rows1|
      ensures rows2[i].chrPos == rows1[i].chrPos
      ensures rows1[i].prs313 == rows2[i].prs313 && rows1[i].unphasedColumn == rows2[i].unphasedColumn
    {
      DerivedColumnsAgree(positionInfo, text1, text2, i);
    }
    FirstColumnsAgree(rows1, rows2, ChromosomeName(n), panel);
    PartitionKeyOrder(rows1, n, panel);
    PartitionKeyOrder(rows2, n, panel);
  }

  /**
   * End to end for one reference SNP `c_p_r_a` and a genotype text made of
   * the single line `rsid<TAB>n<TAB>p<TAB>g` with `c` = `chr{n}`: the
   * derived record carries the two genotype letters as alleles, the
   * per-allele dosages against `a`, the number of `a` letters in `g` as
   * unphased dosage, and the feature name `c_p_r_a_combined`. With
   * `chr1_1000_A_G` and `AG` this is alleles A and G, dosages 0 and 1,
   * unphased dosage 1.
   */
  lemma SingleSnpEndToEnd(c: string, p: string, r: string, a: char,
                          rsid: string, n: string, g: string)
    requires '_' !in c && '_' !in p && '_' !in r && a != '_'
    requires ':' !in c && ':' !in p
    requires c == "chr" + n
    requires rsid != "" && rsid[0] != '#'
    requires '\t' !in rsid && '\t' !in n && '\t' !in p && '\t' !in g
    requires '\n' !in rsid && '\n' !in n && '\n' !in p && '\n' !in g
    requires |g| == 2 && !IsWhitespace(g[0]) && !IsWhitespace(g[1])
    ensures var rows := DerivedRows([ReferenceRow(Join([c, p, r, [a]], '_'))], Join([rsid, n, p, g], '\t'));
            && |rows| == 1
            && rows[0].maternalAllele == Some(g[0]) && rows[0].paternalAllele == Some(g[1])
            && rows[0].maternalDosage == Number(Known(if g[0] == a then 1 else 0))
            && rows[0].paternalDosage == Number(Known(if g[1] == a then 1 else 0))
            && rows[0].unphasedDosage == Number(Known(multiset(g)[a]))
            && rows[0].unphasedColumn == Some(Join([c, p, r, [a]], '_') + "_combined")
  {
    var parts := [c, p, r, [a]];
    var ref := ReferenceRow(Join(parts, '_'));
    var line := Join([rsid, n, p, g], '\t');
    SingleSnpJoined(c, p, r, a, rsid, n, g);
    var joined := JoinRow(AnnotateRow(ref), ParseAndmeData(line));
    DeriveSnp(joined, c, p, r, a, g);
    JoinFour(parts, '_');
    assert DerivedRows([ref], line)[0] == Derive(joined);
  }

  /**
   * Deriving a joined record with key `c:p`, reference allele `r`,
   * alternate allele `a` and a two-letter genotype `g`, outside the panel.
   */
  lemma DeriveSnp(d: Row, c: string, p: string, r: string, a: char, g: string)
    requires ':' !in c && ':' !in p
    requires d.chrPos == Some(c + ":" + p) && d.refAllele == Some(r) && d.altAllele == Some([a])
    requires !d.prs313 && d.genotype == Some(g) && |g| == 2
    ensures var e := Derive(d);
            && e.maternalAllele == Some(g[0]) && e.paternalAllele == Some(g[1])
            && e.maternalDosage == Number(Known(if g[0] == a then 1 else 0))
            && e.paternalDosage == Number(Known(if g[1] == a then 1 else 0))
            && e.unphasedDosage == Number(Known(multiset(g)[a]))
            && e.unphasedColumn == Some(c + "_" + p + "_" + r + "_" + [a] + "_combined")
  {
    var derived := WithDosages(WithAlleles(d));
    UnphasedCountsAltAlleles(d, g, a);
    assert derived.maternalDosage == Number(CalcDosage(Some(g[0]), Some([a])));
    assert derived.paternalDosage == Number(CalcDosage(Some(g[1]), Some([a])));
    ColumnStemOfKey(derived, c, p);
    var stem := c + "_" + p + "_" + r + "_" + [a];
    assert ColumnStem(derived) == stem;
    assert PanelSuffix(derived) == "";
    assert Derive(d).unphasedColumn.value == stem + "_combined" + "";
    assert stem + "_combined" + "" == stem + "_combined";
  }

  /** The feature-name stem of a record keyed `c:p` starts with `c_p_`. */
  lemma ColumnStemOfKey(d: Row, c: string, p: string)
    requires ':' !in c && ':' !in p
    requires d.chrPos == Some(c + ":" + p)
    ensures ColumnStem(d) == c + "_" + p + "_" + JsStr(d.refAllele) + "_" + JsStr(d.altAllele)
  {
    SplitJoin([c, p], ':');
    assert Join([c, p], ':') == c + ":" + p;
  }

  /** The join step of `SingleSnpEndToEnd`: the reference row picks up the one parsed record. */
  lemma SingleSnpJoined(c: string, p: string, r: string, a: char,
                        rsid: string, n: string, g: string)
    requires '_' !in c && '_' !in p && '_' !in r && a != '_'
    requires c == "chr" + n
    requires rsid != "" && rsid[0] != '#'
    requires '\t' !in rsid && '\t' !in n && '\t' !in p && '\t' !in g
    requires '\n' !in rsid && '\n' !in n && '\n' !in p && '\n' !in g
    requires |g| == 2 && !IsWhitespace(g[0]) && !IsWhitespace(g[1])
    ensures var annotated := AnnotateRow(ReferenceRow(Join([c, p, r, [a]], '_')));
            && annotated.chrPos == Some(c + ":" + p)
            && annotated.refAllele == Some(r) && annotated.altAllele == Some([a]) && !annotated.prs313
            && JoinRow(annotated, ParseAndmeData(Join([rsid, n, p, g], '\t'))) ==
               annotated.(rsid := Some(rsid), chromosome := Some(n), position := Some(p), genotype := Some(g))
  {
    AnnotateSnp(c, p, r, a);
    SingleLineRecord(rsid, n, p, g);
    JoinSingleRecord(AnnotateRow(ReferenceRow(Join([c, p, r, [a]], '_'))),
                     GenotypeRecord(rsid, Some(n), Some(p), Some(g), "chr" + n + ":" + p));
  }

  /** The annotation of a reference SNP `c_p_r_a`. */
  lemma AnnotateSnp(c: string, p: string, r: string, a: char)
    requires '_' !in c && '_' !in p && '_' !in r && a != '_'
    ensures var annotated := AnnotateRow(ReferenceRow(Join([c, p, r, [a]], '_')));
            && annotated.chrPos == Some(c + ":" + p)
            && annotated.refAllele == Some(r) && annotated.altAllele == Some([a]) && !annotated.prs313
            && annotated.rsid.None? && annotated.genotype.None?
  {
    var parts := [c, p, r, [a]];
    AnnotateIdentifier(ReferenceRow(Join(parts, '_')), parts);
  }

  /** Joining a row with a single record of the same key lays the record over the row. */
  lemma JoinSingleRecord(d: Row, rec: GenotypeRecord)
    requires d.chrPos == Some(rec.chrPos)
    ensures JoinRow(d, [rec]) == d.(rsid := Some(rec.rsid), chromosome := rec.chromosome,
                                     position := rec.position, genotype := rec.genotype)
  {
    assert LastMatch([rec], rec.chrPos) == Some(0);
  }

  /** A genotype text of one well-formed line with a two-letter genotype parses to one record. */
  lemma SingleLineRecord(rsid: string, n: string, p: string, g: string)
    requires rsid != "" && rsid[0] != '#'
    requires '\t' !in rsid && '\t' !in n && '\t' !in p && '\t' !in g
    requires '\n' !in rsid && '\n' !in n && '\n' !in p && '\n' !in g
    requires |g| == 2 && !IsWhitespace(g[0]) && !IsWhitespace(g[1])
    ensures ParseAndmeData(Join([rsid, n, p, g], '\t')) ==
            [GenotypeRecord(rsid, Some(n), Some(p), Some(g), "chr" + n + ":" + p)]
  {
    var fields := [rsid, n, p, g];
    var line := Join(fields, '\t');
    assert '\n' !in line by {
      assert forall i :: 0 <= i < 4 ==> fields[i] in {rsid, n, p, g};
      JoinAvoids(fields, '\t', '\n');
    }
    SplitWithoutSeparator(line, '\n');
    ParseDataLine(rsid, n, p, g);
    TrimUnchanged(g);
  }

  /**
   * A reference SNP that no genotype line matches keeps a `NaN` unphased
   * dosage (it is never coerced to 0).
   */
  lemma UnmatchedSnpIsNaN(d: Row, andmeDataContent: string)
    requires forall j :: 0 <= j < |ParseAndmeData(andmeDataContent)| ==>
               ParseAndmeData(andmeDataContent)[j].chrPos != ExtractChrPos(d.matchingColumns)
    requires d.genotype.None?
    ensures DerivedRows([d], andmeDataContent)[0].unphasedDosage == Number(NaN)
  {
    var annotated := AnnotateRow(d);
    assert JoinRow(annotated, ParseAndmeData(andmeDataContent)) == annotated;
  }
}
