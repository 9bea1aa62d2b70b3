/**
 * The Monte-Carlo step: a missing unphased dosage is replaced by one drawn
 * from the SNP's minor-allele frequency (MAF). `Math.random` is modelled as
 * a stream of draws given as input, read from an explicit position; the MAF
 * is taken as already parsed into a number.
 */
module Simulation {
  import opened Wrappers
  import opened JsObjects

  /** One `{ key, value }` entry of the array being imputed. */
  datatype Entry = Entry(key: string, value: Value)

  /** One row of the MAF table: its `SNP` name and its `MAF`, after `parseFloat`. */
  datatype MafRow = MafRow(snp: string, maf: real)

  /** The successive results of `Math.random()`. */
  type Draws = nat -> real

  /** What `Math.random` promises of each draw. */
  predicate IsUniformDraw(x: real)
  {
    0.0 <= x < 1.0
  }

  /** The number of draws in `ds` that fall strictly below `maf`. */
  function CountBelow(ds: seq<real>, maf: real): (k: nat)
    ensures k <= |ds|
  {
    if ds == [] then 0
    else (if ds[0] < maf then 1 else 0) + CountBelow(ds[1..], maf)
  }

  /**
   * `simulateAlleleDosages`: one allele per parent, each the alternate one
   * when its draw falls below the frequency; the dosage is their sum.
   */
  function SimulateAlleleDosages(maf: real, maternalDraw: real, paternalDraw: real): (dosage: nat)
    ensures dosage <= 2
    ensures dosage == 0 <==> maternalDraw >= maf && paternalDraw >= maf
    ensures dosage == 2 <==> maternalDraw < maf && paternalDraw < maf
  {
    var maternalAllele := if maternalDraw < maf then 1 else 0;
    var paternalAllele := if paternalDraw < maf then 1 else 0;
    maternalAllele + paternalAllele
  }

  /** The simulated dosage is the number of the two draws that fall below the frequency. */
  lemma SimulateCountsDrawsBelow(maf: real, maternalDraw: real, paternalDraw: real)
    ensures SimulateAlleleDosages(maf, maternalDraw, paternalDraw) == CountBelow([maternalDraw, paternalDraw], maf)
  {
    assert [maternalDraw, paternalDraw][1..] == [paternalDraw];
  }

  /** With draws from `[0, 1)`, a frequency of 0 or less never yields an alternate allele. */
  lemma NonPositiveFrequencyGivesZero(maf: real, maternalDraw: real, paternalDraw: real)
    requires maf <= 0.0 && IsUniformDraw(maternalDraw) && IsUniformDraw(paternalDraw)
    ensures SimulateAlleleDosages(maf, maternalDraw, paternalDraw) == 0
  {
  }

  /** With draws from `[0, 1)`, a frequency of 1 or more always yields two alternate alleles. */
  lemma FullFrequencyGivesTwo(maf: real, maternalDraw: real, paternalDraw: real)
    requires maf >= 1.0 && IsUniformDraw(maternalDraw) && IsUniformDraw(paternalDraw)
    ensures SimulateAlleleDosages(maf, maternalDraw, paternalDraw) == 2
  {
  }

  /** For the same draws, a higher frequency never gives a lower dosage. */
  lemma SimulateMonotoneInFrequency(maf: real, maf': real, maternalDraw: real, paternalDraw: real)
    requires maf <= maf'
    ensures SimulateAlleleDosages(maf, maternalDraw, paternalDraw) <= SimulateAlleleDosages(maf', maternalDraw, paternalDraw)
  {
  }

  /** `mafData.find(row => row.SNP === key)`: the index of the first row for `key`. */
  function FindMaf(mafData: seq<MafRow>, key: string): (j: Option<nat>)
    ensures j.None? <==> forall i :: 0 <= i < |mafData| ==> mafData[i].snp != key
    ensures j.Some? ==> j.value < |mafData| && mafData[j.value].snp == key
    ensures j.Some? ==> forall i :: 0 <= i < j.value ==> mafData[i].snp != key
  {
    if mafData == [] then None
    else if mafData[0].snp == key then Some(0)
    else
      match FindMaf(mafData[1..], key)
      case None => None
      case Some(j) => Some(j + 1)
  }

  /** An entry the map callback replaces: its value is NaN to `isNaN` and its key has a MAF row. */
  predicate Replaced(e: Entry, mafData: seq<MafRow>)
  {
    IsNaN(e.value) && FindMaf(mafData, e.key).Some?
  }

  /** How many entries are replaced; each replacement consumes two draws. */
  function CountReplaced(arr: seq<Entry>, mafData: seq<MafRow>): (k: nat)
    ensures k <= |arr|
  {
    if arr == [] then 0
    else (if Replaced(arr[0], mafData) then 1 else 0) + CountReplaced(arr[1..], mafData)
  }

  /**
   * The `map` callback on one entry, given the two draws it would read: an
   * entry that is NaN to `isNaN` and has a MAF row gets the same key and a
   * dosage simulated from the first matching row's frequency; any other
   * entry is returned as it is.
   */
  function ReplaceEntry(snp: Entry, mafData: seq<MafRow>, maternalDraw: real, paternalDraw: real): (r: Entry)
    ensures r.key == snp.key
    ensures !Replaced(snp, mafData) ==> r == snp
    ensures Replaced(snp, mafData) ==>
              r.value == Number(Known(SimulateAlleleDosages(
                mafData[FindMaf(mafData, snp.key).value].maf, maternalDraw, paternalDraw)))
  {
    if IsNaN(snp.value) then
      match FindMaf(mafData, snp.key)
      case Some(j) =>
        Entry(snp.key, Number(Known(SimulateAlleleDosages(mafData[j].maf, maternalDraw, paternalDraw))))
      case None => snp
    else snp
  }

  /** Where the draws of the entry at position `i` start: after two per replaced entry before it. */
  function DrawIndex(arr: seq<Entry>, mafData: seq<MafRow>, next: nat, i: nat): nat
    requires i <= |arr|
  {
    next + 2 * CountReplaced(arr[..i], mafData)
  }

  /** Skipping the first entry moves every later entry's draw position by the draws that entry used. */
  lemma DrawIndexTail(arr: seq<Entry>, mafData: seq<MafRow>, next: nat, i: nat)
    requires 1 <= i <= |arr|
    ensures DrawIndex(arr, mafData, next, i) ==
            DrawIndex(arr[1..], mafData, next + (if Replaced(arr[0], mafData) then 2 else 0), i - 1)
  {
    assert arr[..i][0] == arr[0];
    assert arr[..i][1..] == arr[1..][..i - 1];
  }

  /**
   * `replaceNaNWithSimulation`: the `map` callback runs on the entries in
   * order and calls `Math.random` twice for each replaced entry, starting
   * at draw `next`.
   */
  function ReplaceNaNWithSimulation(arr: seq<Entry>, mafData: seq<MafRow>, draws: Draws, next: nat): (out: seq<Entry>)
    ensures |out| == |arr|
  {
    if arr == [] then []
    else
      var used := if Replaced(arr[0], mafData) then 2 else 0;
      [ReplaceEntry(arr[0], mafData, draws(next), draws(next + 1))] +
      ReplaceNaNWithSimulation(arr[1..], mafData, draws, next + used)
  }

  /**
   * Entry `i` of the result is the callback applied to entry `i`, reading
   * the two draws after those of the replaced entries before it.
   */
  ghost predicate ReadsDrawsAt(arr: seq<Entry>, mafData: seq<MafRow>, draws: Draws, next: nat, i: nat)
    requires i < |arr|
  {
    var at := DrawIndex(arr, mafData, next, i);
    ReplaceNaNWithSimulation(arr, mafData, draws, next)[i] == ReplaceEntry(arr[i], mafData, draws(at), draws(at + 1))
  }

  /** Every entry of the result reads its draws as `ReadsDrawsAt` says. */
  lemma {:induction false} ReplaceReadsDrawsInOrder(arr: seq<Entry>, mafData: seq<MafRow>, draws: Draws, next: nat)
    ensures forall i :: 0 <= i < |arr| ==> ReadsDrawsAt(arr, mafData, draws, next, i)
  {
    if arr != [] {
      var used := if Replaced(arr[0], mafData) then 2 else 0;
      ReplaceReadsDrawsInOrder(arr[1..], mafData, draws, next + used);
      forall i | 0 <= i < |arr|
        ensures ReadsDrawsAt(arr, mafData, draws, next, i)
      {
        if i == 0 {
          assert arr[..0] == [];
        } else {
          ReadsDrawsStep(arr, mafData, draws, next, i);
        }
      }
    }
  }

  /** The induction step of `ReplaceReadsDrawsInOrder` at one position past the first. */
  lemma ReadsDrawsStep(arr: seq<Entry>, mafData: seq<MafRow>, draws: Draws, next: nat, i: nat)
    requires 1 <= i < |arr|
    requires ReadsDrawsAt(arr[1..], mafData, draws, next + (if Replaced(arr[0], mafData) then 2 else 0), i - 1)
    ensures ReadsDrawsAt(arr, mafData, draws, next, i)
  {
    DrawIndexTail(arr, mafData, next, i);
    ReplaceAtTail(arr, mafData, draws, next, i);
  }

  /** Entry `i` past the first is entry `i - 1` of the map over the rest, which starts after the first entry's draws. */
  lemma ReplaceAtTail(arr: seq<Entry>, mafData: seq<MafRow>, draws: Draws, next: nat, i: nat)
    requires 1 <= i < |arr|
    ensures arr[1..][i - 1] == arr[i]
    ensures ReplaceNaNWithSimulation(arr, mafData, draws, next)[i] ==
            ReplaceNaNWithSimulation(arr[1..], mafData, draws, next + (if Replaced(arr[0], mafData) then 2 else 0))[i - 1]
  {
  }

  /**
   * The map keeps every key, returns each entry that is not replaced as it
   * is, and leaves NaN only where the key has no MAF row.
   */
  lemma ReplaceKeepsKeys(arr: seq<Entry>, mafData: seq<MafRow>, draws: Draws, next: nat)
    ensures var out := ReplaceNaNWithSimulation(arr, mafData, draws, next);
            && (forall i :: 0 <= i < |arr| ==> out[i].key == arr[i].key)
            && (forall i :: 0 <= i < |arr| && !Replaced(arr[i], mafData) ==> out[i] == arr[i])
            && (forall i :: 0 <= i < |arr| && IsNaN(out[i].value) ==>
                  forall j :: 0 <= j < |mafData| ==> mafData[j].snp != arr[i].key)
  {
    var out := ReplaceNaNWithSimulation(arr, mafData, draws, next);
    ReplaceReadsDrawsInOrder(arr, mafData, draws, next);
    forall i | 0 <= i < |arr|
      ensures out[i].key == arr[i].key
      ensures !Replaced(arr[i], mafData) ==> out[i] == arr[i]
      ensures IsNaN(out[i].value) ==> FindMaf(mafData, arr[i].key).None?
    {
      assert ReadsDrawsAt(arr, mafData, draws, next, i);
    }
  }

  /** The whole map consumes two draws per replaced entry. */
  function DrawsUsed(arr: seq<Entry>, mafData: seq<MafRow>): nat
  {
    2 * CountReplaced(arr, mafData)
  }

  /** Replacement counts add up over the two halves of an array. */
  lemma {:induction false} CountReplacedAppend(a: seq<Entry>, b: seq<Entry>, mafData: seq<MafRow>)
    ensures CountReplaced(a + b, mafData) == CountReplaced(a, mafData) + CountReplaced(b, mafData)
  {
    if a != [] {
      assert (a + b)[0] == a[0];
      assert (a + b)[1..] == a[1..] + b;
      CountReplacedAppend(a[1..], b, mafData);
    } else {
      assert a + b == b;
    }
  }

  /**
   * Two replaced entries read disjoint pairs of draws: the later one starts
   * at least two draws after the earlier one, and both draws of every
   * replaced entry lie inside the block of draws the whole map uses.
   */
  lemma DrawsAreDisjoint(arr: seq<Entry>, mafData: seq<MafRow>, i: nat, j: nat)
    requires i < j < |arr| && Replaced(arr[i], mafData)
    ensures 2 * CountReplaced(arr[..i], mafData) + 2 <= 2 * CountReplaced(arr[..j], mafData)
    ensures 2 * CountReplaced(arr[..j], mafData) <= DrawsUsed(arr, mafData)
    ensures 2 * CountReplaced(arr[..i], mafData) + 2 <= DrawsUsed(arr, mafData)
  {
    assert arr[..j] == arr[..i] + arr[i..j];
    CountReplacedAppend(arr[..i], arr[i..j], mafData);
    assert arr[i..j][0] == arr[i];
    assert arr == arr[..j] + arr[j..];
    CountReplacedAppend(arr[..j], arr[j..], mafData);
  }

  /**
   * Both draws of every replaced entry, the last one included, lie inside
   * the block of draws the whole map uses.
   */
  lemma DrawsInsideBlock(arr: seq<Entry>, mafData: seq<MafRow>, i: nat)
    requires i < |arr| && Replaced(arr[i], mafData)
    ensures 2 * CountReplaced(arr[..i], mafData) + 2 <= DrawsUsed(arr, mafData)
  {
    assert arr == arr[..i] + arr[i..];
    CountReplacedAppend(arr[..i], arr[i..], mafData);
    assert arr[i..][0] == arr[i];
  }

  /** After one pass nothing is left to replace. */
  lemma NothingLeftToReplace(arr: seq<Entry>, mafData: seq<MafRow>, draws: Draws, next: nat)
    ensures var out := ReplaceNaNWithSimulation(arr, mafData, draws, next);
            forall i :: 0 <= i < |out| ==> !Replaced(out[i], mafData)
  {
    var out := ReplaceNaNWithSimulation(arr, mafData, draws, next);
    forall i | 0 <= i < |out|
      ensures !Replaced(out[i], mafData)
    {
      if IsNaN(out[i].value) {
        ReplaceKeepsKeys(arr, mafData, draws, next);
        assert FindMaf(mafData, out[i].key).None?;
      }
    }
  }

  /** An array with nothing to replace comes back as it is, whatever the draws. */
  lemma {:induction false} NoneReplacedIsIdentity(arr: seq<Entry>, mafData: seq<MafRow>, draws: Draws, next: nat)
    requires forall i :: 0 <= i < |arr| ==> !Replaced(arr[i], mafData)
    ensures ReplaceNaNWithSimulation(arr, mafData, draws, next) == arr
  {
    ReplaceKeepsKeys(arr, mafData, draws, next);
    var out := ReplaceNaNWithSimulation(arr, mafData, draws, next);
    assert forall i :: 0 <= i < |arr| ==> out[i] == arr[i];
  }

  /** A second pass, with any draws, changes nothing: the simulation is applied once per missing value. */
  lemma ReplaceIdempotent(arr: seq<Entry>, mafData: seq<MafRow>, draws: Draws, next: nat, draws': Draws, next': nat)
    ensures var once := ReplaceNaNWithSimulation(arr, mafData, draws, next);
            ReplaceNaNWithSimulation(once, mafData, draws', next') == once
  {
    NothingLeftToReplace(arr, mafData, draws, next);
    NoneReplacedIsIdentity(ReplaceNaNWithSimulation(arr, mafData, draws, next), mafData, draws', next');
  }

  /** Whatever the draws, every replaced value is a known dosage in `{0, 1, 2}`. */
  lemma ReplacedValuesAreDosages(arr: seq<Entry>, mafData: seq<MafRow>, draws: Draws, next: nat, i: nat)
    requires i < |arr| && Replaced(arr[i], mafData)
    ensures var v := ReplaceNaNWithSimulation(arr, mafData, draws, next)[i].value;
            v.Number? && v.d.Known? && 0 <= v.d.n <= 2
  {
    ReplaceReadsDrawsInOrder(arr, mafData, draws, next);
    assert ReadsDrawsAt(arr, mafData, draws, next, i);
  }
}
