/** The sigma handling of `train`: the per-epoch or continuous schedule
    driving the two renderers, the one inside the network and the one of the
    data loader, which must always be given the same sigma. */
module TrainLoop {
  import opened Results
  import opened SigmaSchedule
  import opened SigmaTable

  /** The two places that hold the current sigma: the splat renderer inside
      the network and the one the data loader renders with. */
  class RendererSigmas {
    var modelSigma: SigmaValue
    var loaderSigma: SigmaValue

    constructor (modelSigma: SigmaValue, loaderSigma: SigmaValue)
      ensures this.modelSigma == modelSigma && this.loaderSigma == loaderSigma
    {
      this.modelSigma := modelSigma;
      this.loaderSigma := loaderSigma;
    }

    /** Both renderers blur with the same sigma. */
    predicate InSync()
      reads this
    {
      modelSigma == loaderSigma
    }

    /** `model.set_sigma(sigma)` together with `data_loader.set_sigma(sigma)`. */
    method SetSigma(sigma: SigmaValue)
      modifies this
      ensures modelSigma == sigma && loaderSigma == sigma
      ensures InSync()
    {
      modelSigma := sigma;
      loaderSigma := sigma;
    }
  }

  /** The numbers of a table that holds no `None`. */
  function Values(table: seq<SigmaValue>): (vals: seq<real>)
    requires forall i :: 0 <= i < |table| ==> table[i].Some?
    ensures |vals| == |table|
    ensures forall i :: 0 <= i < |table| ==> table[i] == Some(vals[i])
  {
    seq(|table|, i requires 0 <= i < |table| => table[i].value)
  }

  /** Whether the run interpolates sigma every step: `cont` set and sigma in use. */
  predicate Continuous(cont: bool, noSigma: bool)
  {
    cont && !noSigma
  }

  /** The sigma set after the optimiser step of batch `batchIdx` of epoch
      `epoch` in continuous mode. */
  function SigmaAfterStep(lookup: seq<SigmaValue>, noSigma: bool, epochs: int, batchesEpoch: int,
                          epoch: int, batchIdx: int): SigmaValue
    requires WellFormedTable(lookup, noSigma) && !noSigma
    requires 0 <= epoch < epochs && 0 <= batchIdx < batchesEpoch
  {
    ContSigmaInRange(epoch, batchIdx, batchesEpoch, epochs, Values(lookup));
    Some(ContSigma(epoch, batchIdx, batchesEpoch, epochs, Values(lookup)).value)
  }

  /** The sigma both renderers hold at the forward pass of batch `batchIdx`
      of epoch `epoch`. Per epoch, the table entry for the epoch. Continuous,
      the head of the table at the very first batch and afterwards the value
      set after the step before. With `cont` but no sigma, the head of the
      table throughout. */
  function SigmaUsed(cont: bool, noSigma: bool, lookup: seq<SigmaValue>, epochs: int, batchesEpoch: int,
                     epoch: int, batchIdx: int): SigmaValue
    requires WellFormedTable(lookup, noSigma)
    requires 0 <= epoch < epochs && 0 <= batchIdx < batchesEpoch
  {
    if !cont then PerEpochSigma(lookup, epoch).value
    else if noSigma then lookup[0]
    else if batchIdx > 0 then SigmaAfterStep(lookup, noSigma, epochs, batchesEpoch, epoch, batchIdx - 1)
    else if epoch > 0 then SigmaAfterStep(lookup, noSigma, epochs, batchesEpoch, epoch - 1, batchesEpoch - 1)
    else lookup[0]
  }

  /** The sigma both renderers hold after the last epoch of a run with
      `epochs > 0`: the last epoch's table entry per epoch; continuous, the
      value set after the very last step; otherwise the head of the table. */
  function FinalSigma(cont: bool, noSigma: bool, lookup: seq<SigmaValue>, epochs: int, batchesEpoch: int): SigmaValue
    requires WellFormedTable(lookup, noSigma)
    requires 0 < epochs && 0 <= batchesEpoch
  {
    if !cont then PerEpochSigma(lookup, epochs - 1).value
    else if !noSigma && 0 < batchesEpoch then
      SigmaAfterStep(lookup, noSigma, epochs, batchesEpoch, epochs - 1, batchesEpoch - 1)
    else lookup[0]
  }

  /** The sigma schedule of `train`. `seen[e][b]` records what the network's
      and the data loader's renderers hold when batch `b` of epoch `e` is
      rendered and predicted. `finished` says whether `train` reaches its final
      save of the points: with no epoch, or no batch in an epoch, the loop
      variables `epoch` or `batch_idx` are never bound and it raises
      UnboundLocalError there instead. */
  method Train(renderers: RendererSigmas, cont: bool, noSigma: bool, lookup: seq<SigmaValue>,
               epochs: nat, batchesEpoch: nat)
    returns (seen: seq<seq<(SigmaValue, SigmaValue)>>, finished: bool)
    requires WellFormedTable(lookup, noSigma)
    modifies renderers
    ensures |seen| == epochs
    ensures forall e :: 0 <= e < epochs ==> |seen[e]| == batchesEpoch
    ensures forall e, b :: 0 <= e < epochs && 0 <= b < batchesEpoch ==>
              seen[e][b].0 == seen[e][b].1 == SigmaUsed(cont, noSigma, lookup, epochs, batchesEpoch, e, b)
    ensures epochs > 0 ==> renderers.InSync()
    ensures epochs > 0 ==> renderers.modelSigma == FinalSigma(cont, noSigma, lookup, epochs, batchesEpoch)
    ensures finished <==> 0 < epochs && 0 < batchesEpoch
    ensures epochs == 0 ==> renderers.modelSigma == old(renderers.modelSigma)
                            && renderers.loaderSigma == old(renderers.loaderSigma)
  {
    var sigma := lookup[0];
    seen := [];
    var epoch := 0;
    var batchIdxBound := false;  // whether the loop variable `batch_idx` was ever bound
    while epoch < epochs
      invariant 0 <= epoch <= epochs
      invariant |seen| == epoch
      invariant forall e :: 0 <= e < epoch ==> |seen[e]| == batchesEpoch
      invariant forall e, b :: 0 <= e < epoch && 0 <= b < batchesEpoch ==>
                  seen[e][b].0 == seen[e][b].1 == SigmaUsed(cont, noSigma, lookup, epochs, batchesEpoch, e, b)
      invariant epoch > 0 ==> renderers.InSync()
      invariant epoch == 0 ==> renderers.modelSigma == old(renderers.modelSigma)
                               && renderers.loaderSigma == old(renderers.loaderSigma)
      invariant cont && epoch < epochs && 0 < batchesEpoch ==>
                  sigma == SigmaUsed(cont, noSigma, lookup, epochs, batchesEpoch, epoch, 0)
      invariant cont && noSigma ==> sigma == lookup[0]
      invariant 0 < epoch ==> renderers.modelSigma == sigma
      invariant batchIdxBound <==> 0 < epoch && 0 < batchesEpoch
      invariant !cont && 0 < epoch ==> sigma == PerEpochSigma(lookup, epoch - 1).value
      invariant Continuous(cont, noSigma) && 0 < epoch && 0 < batchesEpoch ==>
                  sigma == SigmaAfterStep(lookup, noSigma, epochs, batchesEpoch, epoch - 1, batchesEpoch - 1)
      invariant Continuous(cont, noSigma) && batchesEpoch == 0 ==> sigma == lookup[0]
    {
      if !cont {
        sigma := PerEpochSigma(lookup, epoch).value;
      }
      renderers.SetSigma(sigma);
      var row: seq<(SigmaValue, SigmaValue)> := [];
      var batchIdx := 0;
      while batchIdx < batchesEpoch
        invariant 0 <= batchIdx <= batchesEpoch
        invariant |row| == batchIdx
        invariant forall b :: 0 <= b < batchIdx ==>
                    row[b].0 == row[b].1 == SigmaUsed(cont, noSigma, lookup, epochs, batchesEpoch, epoch, b)
        invariant renderers.modelSigma == sigma && renderers.loaderSigma == sigma
        invariant batchIdx < batchesEpoch ==>
                    sigma == SigmaUsed(cont, noSigma, lookup, epochs, batchesEpoch, epoch, batchIdx)
        invariant Continuous(cont, noSigma) && 0 < batchIdx ==>
                    sigma == SigmaAfterStep(lookup, noSigma, epochs, batchesEpoch, epoch, batchIdx - 1)
        invariant cont && noSigma ==> sigma == lookup[0]
        invariant !cont ==> sigma == PerEpochSigma(lookup, epoch).value
        invariant Continuous(cont, noSigma) && batchesEpoch == 0 ==> sigma == lookup[0]
        invariant batchIdxBound <==> (0 < epoch || 0 < batchIdx) && 0 < batchesEpoch
      {
        batchIdxBound := true;
        row := row + [(renderers.modelSigma, renderers.loaderSigma)];
        if cont && !noSigma {
          var vals := Values(lookup);
          ContSigmaInRange(epoch, batchIdx, batchesEpoch, epochs, vals);
          sigma := Some(ContSigma(epoch, batchIdx, batchesEpoch, epochs, vals).value);
          renderers.SetSigma(sigma);
        }
        batchIdx := batchIdx + 1;
      }
      seen := seen + [row];
      epoch := epoch + 1;
    }
    // The final save names both `epoch` and `batch_idx`.
    finished := 0 < epochs && batchIdxBound;
  }

  // ---------------------------------------------------------------------
  // Properties of the schedule the renderers see
  // ---------------------------------------------------------------------

  /** In continuous mode the first batch of the run is rendered with the head
      of the table, and so is the second: the update after the first step
      computes the head again. */
  lemma ContinuousRunStartsAtHead(lookup: seq<SigmaValue>, noSigma: bool, epochs: int, batchesEpoch: int)
    requires WellFormedTable(lookup, noSigma) && !noSigma
    requires 0 < epochs && 0 < batchesEpoch
    ensures SigmaUsed(true, noSigma, lookup, epochs, batchesEpoch, 0, 0) == lookup[0]
    ensures 1 < batchesEpoch ==> SigmaUsed(true, noSigma, lookup, epochs, batchesEpoch, 0, 1) == lookup[0]
    ensures 1 == batchesEpoch < epochs ==> SigmaUsed(true, noSigma, lookup, epochs, batchesEpoch, 1, 0) == lookup[0]
  {
    ContSigmaFirstStep(batchesEpoch, epochs, Values(lookup));
  }

  /** The step before batch `batchIdx` of epoch `epoch`, and its global index
      is one less. */
  lemma PreviousStep(epoch: int, batchIdx: int, batchesEpoch: int) returns (pe: int, pb: int)
    requires 0 <= epoch && 0 <= batchIdx < batchesEpoch && (epoch > 0 || batchIdx > 0)
    ensures 0 <= pe <= epoch && 0 <= pb < batchesEpoch
    ensures pe * batchesEpoch + pb == epoch * batchesEpoch + batchIdx - 1
    ensures batchIdx > 0 ==> pe == epoch && pb == batchIdx - 1
    ensures batchIdx == 0 ==> pe == epoch - 1 && pb == batchesEpoch - 1
  {
    if batchIdx > 0 {
      pe, pb := epoch, batchIdx - 1;
    } else {
      pe, pb := epoch - 1, batchesEpoch - 1;
      assert (epoch - 1) * batchesEpoch == epoch * batchesEpoch - batchesEpoch;
    }
  }

  /** Only batch 0 of epoch 0 has global step 0. */
  lemma FirstGlobalStep(epoch: int, batchIdx: int, batchesEpoch: int)
    requires 0 <= epoch && 0 <= batchIdx < batchesEpoch
    requires epoch * batchesEpoch + batchIdx <= 0
    ensures epoch == 0 && batchIdx == 0
  {
    assert epoch * batchesEpoch >= 0;
  }

  /** In continuous mode every batch but the first of the run is rendered
      with the `cont_sigma` value of the step before it. */
  lemma ContinuousSigmaFromPrevious(lookup: seq<SigmaValue>, noSigma: bool, epochs: int, batchesEpoch: int,
                                    epoch: int, batchIdx: int) returns (pe: int, pb: int)
    requires WellFormedTable(lookup, noSigma) && !noSigma
    requires 0 <= epoch < epochs && 0 <= batchIdx < batchesEpoch && (epoch > 0 || batchIdx > 0)
    ensures 0 <= pe < epochs && 0 <= pb < batchesEpoch
    ensures pe * batchesEpoch + pb == epoch * batchesEpoch + batchIdx - 1
    ensures ContSigma(pe, pb, batchesEpoch, epochs, Values(lookup)).Ok?
    ensures SigmaUsed(true, noSigma, lookup, epochs, batchesEpoch, epoch, batchIdx)
            == Some(ContSigma(pe, pb, batchesEpoch, epochs, Values(lookup)).value)
  {
    pe, pb := PreviousStep(epoch, batchIdx, batchesEpoch);
    ContSigmaInRange(pe, pb, batchesEpoch, epochs, Values(lookup));
  }

  /** In continuous mode, for a non-increasing table, a later batch is never
      rendered with a larger sigma than an earlier one. */
  lemma ContinuousSigmaNonIncreasing(lookup: seq<SigmaValue>, noSigma: bool, epochs: int, batchesEpoch: int,
                                     e1: int, b1: int, e2: int, b2: int)
    requires WellFormedTable(lookup, noSigma) && !noSigma && NonIncreasing(Values(lookup))
    requires 0 <= e1 < epochs && 0 <= b1 < batchesEpoch
    requires 0 <= e2 < epochs && 0 <= b2 < batchesEpoch
    requires e1 * batchesEpoch + b1 <= e2 * batchesEpoch + b2
    ensures SigmaUsed(true, noSigma, lookup, epochs, batchesEpoch, e1, b1).value
            >= SigmaUsed(true, noSigma, lookup, epochs, batchesEpoch, e2, b2).value
  {
    var vals := Values(lookup);
    if e2 == 0 && b2 == 0 {
      FirstGlobalStep(e1, b1, batchesEpoch);
    } else {
      var pe2, pb2 := ContinuousSigmaFromPrevious(lookup, noSigma, epochs, batchesEpoch, e2, b2);
      if e1 == 0 && b1 == 0 {
        ContSigmaFirstStep(batchesEpoch, epochs, vals);
        ContSigmaMonotone(0, 0, pe2, pb2, batchesEpoch, epochs, vals);
      } else {
        var pe1, pb1 := ContinuousSigmaFromPrevious(lookup, noSigma, epochs, batchesEpoch, e1, b1);
        ContSigmaMonotone(pe1, pb1, pe2, pb2, batchesEpoch, epochs, vals);
      }
    }
  }

  /** In per-epoch mode every batch of epoch `epoch` is rendered with the
      entry for that epoch, which is the last entry from epoch
      `len(lookup) - 1` on. */
  lemma PerEpochSigmaUsed(lookup: seq<SigmaValue>, noSigma: bool, epochs: int, batchesEpoch: int,
                          epoch: int, batchIdx: int)
    requires WellFormedTable(lookup, noSigma)
    requires 0 <= epoch < epochs && 0 <= batchIdx < batchesEpoch
    ensures epoch < |lookup| ==> SigmaUsed(false, noSigma, lookup, epochs, batchesEpoch, epoch, batchIdx) == lookup[epoch]
    ensures epoch >= |lookup| - 1 ==>
              SigmaUsed(false, noSigma, lookup, epochs, batchesEpoch, epoch, batchIdx) == lookup[|lookup| - 1]
  {
    PerEpochSigmaSaturates(lookup, epoch);
  }
}
