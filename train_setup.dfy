/** The set-up rules of `init`: data-set sizes, the sigma table, the check on
    the sigma flags and the choice of data source. */
module TrainSetup {
  import opened Results
  import opened SigmaTable

  /** The command-line options `init` reads. */
  datatype Config = Config(
    trainSize: int, validSize: int, testSize: int,
    aug: bool, numAug: int,
    noSigma: bool, predictSigma: bool,
    sigmaFile: string,
    fitsPath: string, objPath: string)

  /** What `init` learns from outside the program: whether the sigma file
      exists, its text, and the `size` the OBJ data loader reports. */
  datatype Environment = Environment(sigmaFileExists: bool, sigmaFileText: string, objLoaderSize: int)

  /** The data generator: images read from a FITS path, or renders of an OBJ model. */
  datatype DataSource = Fits(imagePath: string) | Obj(objPath: string)

  /** The sizes of the train, validation and test data sets. */
  datatype SetSizes = SetSizes(train: int, valid: int, test: int)

  /** What `init` hands to training. */
  datatype Setup = Setup(
    sigmaLookup: seq<SigmaValue>,
    source: DataSource,
    loaderSize: int,          // the `size` given to the data loader
    loaderSigma: SigmaValue,  // the `sigma` given to the data loader
    sets: SetSizes)

  /** Why `init` stops: a bad sigma file token (ValueError), `no_sigma`
      without `predict_sigma` (the program exits), or no data path (ValueError). */
  datatype InitError = BadSigmaToken(token: string) | NoSigmaWithoutPredict | NoDataSource

  /** The factor augmentation multiplies every set size by. */
  function AugFactor(cfg: Config): int
  {
    if cfg.aug then cfg.numAug else 1
  }

  /** The train, valid and test sizes after augmentation. */
  function ScaledSetSizes(cfg: Config): (r: SetSizes)
    ensures r.train == cfg.trainSize * AugFactor(cfg)
    ensures r.valid == cfg.validSize * AugFactor(cfg)
    ensures r.test == cfg.testSize * AugFactor(cfg)
    ensures r.train + r.valid + r.test == (cfg.trainSize + cfg.validSize + cfg.testSize) * AugFactor(cfg)
  {
    if cfg.aug then
      SetSizes(cfg.trainSize * cfg.numAug, cfg.validSize * cfg.numAug, cfg.testSize * cfg.numAug)
    else
      SetSizes(cfg.trainSize, cfg.validSize, cfg.testSize)
  }

  /** The training-set size in OBJ mode, `min(loader.size - test, train)`:
      never more than asked for, and leaving room for the test set. */
  function ObjTrainSize(loaderSize: int, testSetSize: int, trainSetSize: int): (r: int)
    ensures r <= trainSetSize
    ensures r + testSetSize <= loaderSize
    ensures r == trainSetSize || r + testSetSize == loaderSize
  {
    if loaderSize - testSetSize < trainSetSize then loaderSize - testSetSize else trainSetSize
  }

  /** `init` up to the construction of the loaders and sets: the sizes, the
      sigma table, the flag check, and the data source (FITS before OBJ). */
  method Init(cfg: Config, env: Environment, parse: string -> Option<real>)
    returns (r: Result<Setup, InitError>)
    ensures r == Err(NoSigmaWithoutPredict) <==> cfg.noSigma && !cfg.predictSigma
    ensures r.Err? && r.error.BadSigmaToken?
            <==> SigmaTableOf(cfg.noSigma, cfg.sigmaFile, env.sigmaFileExists, env.sigmaFileText, parse).Err?
    ensures r.Err? && r.error.BadSigmaToken? ==>
              r.error.token
              == SigmaTableOf(cfg.noSigma, cfg.sigmaFile, env.sigmaFileExists, env.sigmaFileText, parse).error.token
    ensures r == Err(NoDataSource)
            <==> && SigmaTableOf(cfg.noSigma, cfg.sigmaFile, env.sigmaFileExists, env.sigmaFileText, parse).Ok?
                 && !(cfg.noSigma && !cfg.predictSigma)
                 && cfg.fitsPath == "" && cfg.objPath == ""
    ensures r.Ok? ==>
              && r.value.sigmaLookup
                 == SigmaTableOf(cfg.noSigma, cfg.sigmaFile, env.sigmaFileExists, env.sigmaFileText, parse).value
              && WellFormedTable(r.value.sigmaLookup, cfg.noSigma)
              && r.value.loaderSigma == r.value.sigmaLookup[0]
    ensures r.Ok? ==> r.value.source == if cfg.fitsPath != "" then Fits(cfg.fitsPath) else Obj(cfg.objPath)
    ensures r.Ok? ==> r.value.loaderSize == cfg.trainSize + cfg.testSize + cfg.validSize
    ensures r.Ok? ==>
              var scaled := ScaledSetSizes(cfg);
              && r.value.sets.valid == scaled.valid
              && r.value.sets.test == scaled.test
              && r.value.sets.train
                 == if r.value.source.Fits? then scaled.train
                    else ObjTrainSize(env.objLoaderSize, scaled.test, scaled.train)
  {
    var scaled := ScaledSetSizes(cfg);
    var table := BuildSigmaTable(cfg.noSigma, cfg.sigmaFile, env.sigmaFileExists, env.sigmaFileText, parse);
    if table.Err? {
      return Err(BadSigmaToken(table.error.token));
    }
    SigmaTableShape(cfg.noSigma, cfg.sigmaFile, env.sigmaFileExists, env.sigmaFileText, parse);
    var lookup := table.value;
    if cfg.noSigma && !cfg.predictSigma {
      return Err(NoSigmaWithoutPredict);
    }
    var loaderSize := cfg.trainSize + cfg.testSize + cfg.validSize;
    if cfg.fitsPath != "" {
      r := Ok(Setup(lookup, Fits(cfg.fitsPath), loaderSize, lookup[0], scaled));
    } else if cfg.objPath != "" {
      var trainSize := ObjTrainSize(env.objLoaderSize, scaled.test, scaled.train);
      r := Ok(Setup(lookup, Obj(cfg.objPath), loaderSize, lookup[0],
                    SetSizes(trainSize, scaled.valid, scaled.test)));
    } else {
      r := Err(NoDataSource);
    }
  }
}
