/** The forecasting engine: for each disease of the history, in order of first
    appearance, a regressor is fitted on that disease's rows, one next-week row per
    clinic is built from the clinic's last row and predicted, and the regressor's
    feature importances become a labelled table sorted from the largest down.
    The regressor is a parameter: a prediction and an importance function of the
    training data. The noise added to the next-week weather is a parameter too. */
module Forecast {
  import opened Records
  import opened Labels
  import opened Grouping
  import opened Ranking

  /** The feature columns a model may use. */
  datatype Feature = Temperature | Precipitation | Density | PreviousCases

  /** Name of a feature's column in the history table. */
  function ColumnName(f: Feature): string
  {
    match f
    case Temperature => "temperatura_media_c"
    case Precipitation => "precipitacao_mm"
    case Density => "densidade_populacional"
    case PreviousCases => "casos_semana_anterior"
  }

  /** The features of the model of disease `d`, in column order: precipitation is used
      for the two mosquito-borne diseases only. */
  function Features(d: Disease): (fs: seq<Feature>)
    ensures |fs| == (if d == Influenza then 3 else 4)
    ensures Precipitation in fs <==> d != Influenza
    ensures Temperature in fs && Density in fs && PreviousCases in fs
    ensures NoDuplicates(fs)
  {
    match d
    case Dengue => [Temperature, Precipitation, Density, PreviousCases]
    case Chikungunya => [Temperature, Precipitation, Density, PreviousCases]
    case Influenza => [Temperature, Density, PreviousCases]
  }

  /** The value of a feature in a row, as the regressor sees it. */
  function FeatureValue(r: Row, f: Feature): real
  {
    match f
    case Temperature => r.temperature
    case Precipitation => r.precipitation
    case Density => r.density as real
    case PreviousCases => r.previousCases as real
  }

  /** The feature vector of a row (`df[features]` for one row). */
  function Vector(r: Row, fs: seq<Feature>): (v: seq<real>)
    ensures |v| == |fs|
  {
    seq(|fs|, i requires 0 <= i < |fs| => FeatureValue(r, fs[i]))
  }

  /** The feature matrix of a table, one vector per row. */
  function Matrix(rows: seq<Row>, fs: seq<Feature>): (x: seq<seq<real>>)
    ensures |x| == |rows|
  {
    seq(|rows|, i requires 0 <= i < |rows| => Vector(rows[i], fs))
  }

  /** The targets of a table: the recorded counts. */
  function Targets(rows: seq<Row>): (y: seq<real>)
    ensures |y| == |rows|
  {
    seq(|rows|, i requires 0 <= i < |rows| => rows[i].cases as real)
  }

  /** A regressor fitted on (X, y) with a fixed seed: its prediction for a feature
      vector and its feature importances are functions of its training data. */
  datatype Learner = Learner(
    predict: (seq<seq<real>>, seq<real>, seq<real>) -> real,
    importances: (seq<seq<real>>, seq<real>) -> seq<real>)

  /** The normal noise added to the next-week temperature and precipitation of the
      `k`-th clinic (in the group-by order) of disease `d`. */
  datatype Noise = Noise(temp: (Disease, nat) -> real, precip: (Disease, nat) -> real)

  /** A next-week row with its predicted count. */
  datatype Prediction = Prediction(row: Row, predicted: int)

  datatype EngineError =
    | MissingDiseaseColumn                  // an empty table has no disease column
    | ImportanceLengthMismatch(d: Disease)  // labels and importances of unequal length

  datatype Result<T> = Success(value: T) | Failure(error: EngineError)

  /** The engine's two results: all next-week predictions, and one risk-factor table
      per disease. */
  datatype Output = Output(predictions: seq<Prediction>, importances: map<Disease, seq<Importance>>)

  /** Training matrix of the model of disease `d`. */
  function Design(table: seq<Row>, d: Disease): seq<seq<real>>
  {
    Matrix(OfDisease(table, d), Features(d))
  }

  /** Training targets of the model of disease `d`. */
  function Observed(table: seq<Row>, d: Disease): seq<real>
  {
    Targets(OfDisease(table, d))
  }

  /** The importances the model of disease `d` reports. */
  function Weights(table: seq<Row>, learner: Learner, d: Disease): seq<real>
  {
    learner.importances(Design(table, d), Observed(table, d))
  }

  /** The next-week row built from a clinic's last row: weather perturbed by the noise,
      the last recorded count carried as the previous count, everything else kept. */
  function NextWeek(r: Row, tempNoise: real, precipNoise: real): (n: Row)
    ensures n.previousCases == r.cases
    ensures n.temperature - r.temperature == tempNoise && n.precipitation - r.precipitation == precipNoise
    ensures n.(temperature := r.temperature, precipitation := r.precipitation, previousCases := r.previousCases) == r
  {
    r.(temperature := r.temperature + tempNoise,
       precipitation := r.precipitation + precipNoise,
       previousCases := r.cases)
  }

  /** The prediction of the model of disease `d` for a next-week row, cast to an
      integer by truncation toward zero. */
  function Predict(table: seq<Row>, learner: Learner, d: Disease, next: Row): (p: Prediction)
    ensures p.row == next
    ensures var v := learner.predict(Design(table, d), Observed(table, d), Vector(next, Features(d)));
      && (0.0 <= v ==> 0 <= p.predicted && p.predicted as real <= v < p.predicted as real + 1.0)
      && (v < 0.0 ==> p.predicted <= 0 && p.predicted as real - 1.0 < v <= p.predicted as real)
  {
    Prediction(next, Trunc(learner.predict(Design(table, d), Observed(table, d), Vector(next, Features(d)))))
  }

  /** The next-week predictions of disease `d`: one per clinic, in group-by order. */
  function ForecastRows(table: seq<Row>, learner: Learner, noise: Noise, d: Disease): (ps: seq<Prediction>)
  {
    var last := GroupLast(OfDisease(table, d));
    seq(|last|, k requires 0 <= k < |last| =>
      Predict(table, learner, d, NextWeek(last[k], noise.temp(d, k), noise.precip(d, k))))
  }

  /** The feature labels of disease `d` next to the reported importances. */
  function Labelled(fs: seq<Feature>, weights: seq<real>): (t: seq<Importance>)
    requires |weights| == |fs|
    ensures |t| == |fs|
  {
    seq(|fs|, i requires 0 <= i < |fs| => Importance(Label(ColumnName(fs[i])), weights[i]))
  }

  /** The risk-factor table of disease `d`: fails when the importances and the labels
      differ in length, and otherwise holds the labelled importances, sorted. */
  function ImportanceTable(d: Disease, weights: seq<real>): (t: Result<seq<Importance>>)
    ensures t.Success? <==> |weights| == |Features(d)|
    ensures t.Failure? ==> t.error == ImportanceLengthMismatch(d)
  {
    if |weights| != |Features(d)| then Failure(ImportanceLengthMismatch(d))
    else Success(SortDesc(Labelled(Features(d), weights)))
  }

  /** A successful risk-factor table holds every (label, importance) pair of the
      features, sorted by importance from the largest down, and no label in it shows an
      underscore. */
  lemma ImportanceTableSpec(d: Disease, weights: seq<real>)
    requires |weights| == |Features(d)|
    ensures var t := ImportanceTable(d, weights).value;
      && SortedDesc(t)
      && multiset(t) == multiset(Labelled(Features(d), weights))
      && |t| == |Features(d)|
      && forall e: Importance :: e in t ==> '_' !in e.factor
  {
    var l := Labelled(Features(d), weights);
    var t := ImportanceTable(d, weights).value;
    SortDescEntries(l);
    forall e: Importance | e in t
      ensures '_' !in e.factor
    {
      var i :| 0 <= i < |l| && l[i] == e;
      LabelShape(ColumnName(Features(d)[i]));
    }
  }

  /** One pass of the engine's loop: a disease, its next-week predictions and its
      risk-factor table. */
  datatype Pass = Pass(disease: Disease, forecasts: seq<Prediction>, risk: Result<seq<Importance>>)

  /** The pass of disease `d`. */
  function PassOf(table: seq<Row>, learner: Learner, noise: Noise, d: Disease): Pass
  {
    Pass(d, ForecastRows(table, learner, noise, d), ImportanceTable(d, Weights(table, learner, d)))
  }

  /** The passes of the diseases `ds`, in order. */
  function Passes(table: seq<Row>, learner: Learner, noise: Noise, ds: seq<Disease>): (ps: seq<Pass>)
    ensures |ps| == |ds|
  {
    seq(|ds|, j requires 0 <= j < |ds| => PassOf(table, learner, noise, ds[j]))
  }

  /** The engine's state after its first `k` passes: the predictions of each pass are
      appended and its risk-factor table is recorded; a failing table ends the run. */
  function Run(passes: seq<Pass>, k: nat): Result<Output>
    requires k <= |passes|
  {
    if k == 0 then Success(Output([], map[]))
    else
      match Run(passes, k - 1)
      case Failure(e) => Failure(e)
      case Success(o) =>
        match passes[k - 1].risk
        case Failure(e) => Failure(e)
        case Success(t) =>
          Success(Output(o.predictions + passes[k - 1].forecasts, o.importances[passes[k - 1].disease := t]))
  }

  /** The whole engine: an empty table has no disease column; otherwise one pass per
      distinct disease, in order of first appearance. */
  function Engine(table: seq<Row>, learner: Learner, noise: Noise): Result<Output>
  {
    if |table| == 0 then Failure(MissingDiseaseColumn)
    else
      var ds := Unique(DiseaseColumn(table));
      Run(Passes(table, learner, noise, ds), |ds|)
  }

  /** The predictions of the first `k` passes, pass after pass. */
  function AllForecasts(passes: seq<Pass>, k: nat): seq<Prediction>
    requires k <= |passes|
  {
    if k == 0 then [] else AllForecasts(passes, k - 1) + passes[k - 1].forecasts
  }

  /** Every disease of the table gets importances as many as its features. */
  predicate ImportancesFit(table: seq<Row>, learner: Learner)
  {
    forall d :: d in DiseaseColumn(table) ==> |Weights(table, learner, d)| == |Features(d)|
  }

  /** No two predictions are for the same (clinic, disease) pair. */
  predicate PairsDistinct(ps: seq<Prediction>)
  {
    forall i, j :: 0 <= i < j < |ps| ==> ps[i].row.clinic != ps[j].row.clinic || ps[i].row.disease != ps[j].row.disease
  }

  /** A prediction made from the last row of its (clinic, disease) pair: that row with
      the weather replaced and its own count carried as the previous count, and a
      count predicted by the model of its disease from its features. */
  predicate FromLastRow(table: seq<Row>, learner: Learner, p: Prediction)
  {
    && p.row.clinic in Names(OfDisease(table, p.row.disease))
    && var last := LastOf(table, p.row.clinic, p.row.disease);
       && p.row == last.(temperature := p.row.temperature, precipitation := p.row.precipitation,
                         previousCases := last.cases)
       && p.predicted == Trunc(learner.predict(Design(table, p.row.disease), Observed(table, p.row.disease),
                                               Vector(p.row, Features(p.row.disease))))
  }

  /** Once a pass fails, the run keeps that failure. */
  lemma {:induction false} RunFailurePersists(passes: seq<Pass>, k: nat, m: nat)
    requires k <= m <= |passes|
    requires Run(passes, k).Failure?
    ensures Run(passes, m) == Run(passes, k)
  {
    if m > k {
      RunFailurePersists(passes, k, m - 1);
    }
  }

  /** After `k` passes the run is still going exactly when each of those passes
      produced a risk-factor table. */
  lemma {:induction false} RunSuccess(passes: seq<Pass>, k: nat)
    requires k <= |passes|
    ensures Run(passes, k).Success? <==> forall j :: 0 <= j < k ==> passes[j].risk.Success?
  {
    if k > 0 {
      RunSuccess(passes, k - 1);
    }
  }

  /** A failed run reports the error of its first failing pass. */
  lemma {:induction false} RunFailure(passes: seq<Pass>, k: nat)
    requires k <= |passes|
    requires Run(passes, k).Failure?
    ensures exists j :: 0 <= j < k && passes[j].risk.Failure? && Run(passes, k).error == passes[j].risk.error &&
              forall i :: 0 <= i < j ==> passes[i].risk.Success?
  {
    if Run(passes, k - 1).Failure? {
      RunFailure(passes, k - 1);
    } else {
      RunSuccess(passes, k - 1);
    }
  }

  /** A run still going after `k` passes holds the predictions of those passes in order
      and a risk-factor table for exactly their diseases, each the table of a pass of
      that disease. */
  lemma {:induction false} RunValue(passes: seq<Pass>, k: nat)
    requires k <= |passes|
    requires Run(passes, k).Success?
    ensures var o := Run(passes, k).value;
      && o.predictions == AllForecasts(passes, k)
      && (forall d :: d in o.importances <==> exists j :: 0 <= j < k && passes[j].disease == d)
      && forall d :: d in o.importances ==>
           exists j :: 0 <= j < k && passes[j].disease == d && passes[j].risk == Success(o.importances[d])
  {
    if k > 0 {
      RunValue(passes, k - 1);
      var o := Run(passes, k).value;
      forall d | d in o.importances
        ensures exists j :: 0 <= j < k && passes[j].disease == d && passes[j].risk == Success(o.importances[d])
      {
        if d != passes[k - 1].disease {
          var j :| 0 <= j < k - 1 && passes[j].disease == d && passes[j].risk == Success(Run(passes, k - 1).value.importances[d]);
        }
      }
    }
  }

  /** The engine succeeds exactly when the table is not empty and every disease of
      the table gets as many importances as it has features. */
  lemma EngineSucceeds(table: seq<Row>, learner: Learner, noise: Noise)
    ensures Engine(table, learner, noise).Success? <==> |table| > 0 && ImportancesFit(table, learner)
  {
    if |table| > 0 {
      var ds := Unique(DiseaseColumn(table));
      var passes := Passes(table, learner, noise, ds);
      UniqueSpec(DiseaseColumn(table));
      RunSuccess(passes, |ds|);
      if !ImportancesFit(table, learner) {
        var d :| d in DiseaseColumn(table) && |Weights(table, learner, d)| != |Features(d)|;
        var j :| 0 <= j < |ds| && ds[j] == d;
        assert !passes[j].risk.Success?;
      } else {
        forall j | 0 <= j < |ds|
          ensures passes[j].risk.Success?
        {
          assert ds[j] in ds;
        }
      }
    }
  }

  /** The engine's errors: an empty table has no disease column; otherwise a failure
      names a disease of the table whose importances have the wrong length. */
  lemma EngineFailure(table: seq<Row>, learner: Learner, noise: Noise)
    requires Engine(table, learner, noise).Failure?
    ensures |table| == 0 <==> Engine(table, learner, noise).error == MissingDiseaseColumn
    ensures |table| > 0 ==>
              exists d :: d in DiseaseColumn(table) && |Weights(table, learner, d)| != |Features(d)| &&
                Engine(table, learner, noise).error == ImportanceLengthMismatch(d)
  {
    if |table| > 0 {
      var ds := Unique(DiseaseColumn(table));
      var passes := Passes(table, learner, noise, ds);
      UniqueSpec(DiseaseColumn(table));
      RunFailure(passes, |ds|);
      var j :| 0 <= j < |ds| && passes[j].risk.Failure? && Run(passes, |ds|).error == passes[j].risk.error;
      assert ds[j] in ds;
    }
  }

  /** On success the risk-factor tables are keyed by exactly the diseases of the table. */
  lemma EngineImportanceKeys(table: seq<Row>, learner: Learner, noise: Noise)
    requires Engine(table, learner, noise).Success?
    ensures forall d :: d in Engine(table, learner, noise).value.importances <==> d in DiseaseColumn(table)
  {
    var ds := Unique(DiseaseColumn(table));
    var passes := Passes(table, learner, noise, ds);
    UniqueSpec(DiseaseColumn(table));
    RunValue(passes, |ds|);
    PassesDiseases(table, learner, noise, ds);
  }

  /** On success there is one risk-factor table per disease of the table, and each is
      sorted by importance from the largest down, holds exactly the (label, importance)
      pairs of its features, and shows no underscore in any label. */
  lemma EngineImportances(table: seq<Row>, learner: Learner, noise: Noise)
    requires Engine(table, learner, noise).Success?
    ensures var imp := Engine(table, learner, noise).value.importances;
      && (forall d :: d in imp <==> d in DiseaseColumn(table))
      && forall d :: d in imp ==>
           && SortedDesc(imp[d])
           && |imp[d]| == |Features(d)|
           && |Weights(table, learner, d)| == |Features(d)|
           && multiset(imp[d]) == multiset(Labelled(Features(d), Weights(table, learner, d)))
           && forall e: Importance :: e in imp[d] ==> '_' !in e.factor
  {
    EngineImportanceKeys(table, learner, noise);
    var ds := Unique(DiseaseColumn(table));
    var passes := Passes(table, learner, noise, ds);
    RunValue(passes, |ds|);
    var imp := Engine(table, learner, noise).value.importances;
    forall d | d in imp
      ensures SortedDesc(imp[d]) && |imp[d]| == |Features(d)| && |Weights(table, learner, d)| == |Features(d)|
      ensures multiset(imp[d]) == multiset(Labelled(Features(d), Weights(table, learner, d)))
      ensures forall e: Importance :: e in imp[d] ==> '_' !in e.factor
    {
      var j :| 0 <= j < |ds| && passes[j].disease == d && passes[j].risk == Success(imp[d]);
      ImportanceTableSpec(d, Weights(table, learner, d));
    }
  }

  /** The `k`-th prediction of disease `d` is built from the `k`-th group-by row, which
      is the last row of its clinic for that disease. */
  lemma ForecastRowAt(table: seq<Row>, learner: Learner, noise: Noise, d: Disease, k: nat)
    requires k < |ForecastRows(table, learner, noise, d)|
    ensures var p := ForecastRows(table, learner, noise, d)[k];
      && p.row.clinic == GroupLast(OfDisease(table, d))[k].clinic
      && p.row.disease == d
      && p.row.clinic in Names(OfDisease(table, d))
      && p.row == NextWeek(LastOf(table, p.row.clinic, d), noise.temp(d, k), noise.precip(d, k))
      && FromLastRow(table, learner, p)
  {
    var rows := OfDisease(table, d);
    var g := GroupLast(rows);
    GroupLastLast(rows);
    OfDiseaseSpec(table, d);
    assert g[k] in g;
  }

  /** Every prediction of disease `d` is of that disease. */
  lemma ForecastRowsDisease(table: seq<Row>, learner: Learner, noise: Noise, d: Disease)
    ensures forall p :: p in ForecastRows(table, learner, noise, d) ==> p.row.disease == d
  {
    var ps := ForecastRows(table, learner, noise, d);
    forall p | p in ps
      ensures p.row.disease == d
    {
      var k :| 0 <= k < |ps| && ps[k] == p;
      ForecastRowAt(table, learner, noise, d, k);
    }
  }

  /** Every prediction of disease `d` is made from the last row of its pair. */
  lemma ForecastRowsFrom(table: seq<Row>, learner: Learner, noise: Noise, d: Disease)
    ensures forall p :: p in ForecastRows(table, learner, noise, d) ==> FromLastRow(table, learner, p)
  {
    var ps := ForecastRows(table, learner, noise, d);
    forall p | p in ps
      ensures FromLastRow(table, learner, p)
    {
      var k :| 0 <= k < |ps| && ps[k] == p;
      ForecastRowAt(table, learner, noise, d, k);
    }
  }

  /** The predictions of one disease come in strictly ascending clinic-name order. */
  lemma ForecastRowsSorted(table: seq<Row>, learner: Learner, noise: Noise, d: Disease)
    ensures var ps := ForecastRows(table, learner, noise, d);
      forall i, j :: 0 <= i < j < |ps| ==> LexLess(ps[i].row.clinic, ps[j].row.clinic)
  {
    var ps := ForecastRows(table, learner, noise, d);
    GroupLastSorted(OfDisease(table, d));
    forall i, j | 0 <= i < j < |ps|
      ensures LexLess(ps[i].row.clinic, ps[j].row.clinic)
    {
      ForecastRowAt(table, learner, noise, d, i);
      ForecastRowAt(table, learner, noise, d, j);
    }
  }

  /** Every clinic with rows of disease `d` gets a prediction for it. */
  lemma ForecastRowsCover(table: seq<Row>, learner: Learner, noise: Noise, d: Disease)
    ensures var ps := ForecastRows(table, learner, noise, d);
      forall name :: name in Names(OfDisease(table, d)) ==> exists k :: 0 <= k < |ps| && ps[k].row.clinic == name
  {
    var rows := OfDisease(table, d);
    var g := GroupLast(rows);
    var ps := ForecastRows(table, learner, noise, d);
    GroupLastNames(rows);
    forall name | name in Names(rows)
      ensures exists k :: 0 <= k < |ps| && ps[k].row.clinic == name
    {
      assert name in Names(g);
      var x :| x in g && x.clinic == name;
      var k :| 0 <= k < |g| && g[k] == x;
      ForecastRowAt(table, learner, noise, d, k);
    }
  }

  /** The predictions of one disease: for each clinic of that disease exactly one, in
      ascending clinic-name order, the `k`-th built from the clinic's last row with the
      `k`-th weather noise, and predicted by the model of that disease. */
  lemma ForecastRowsSpec(table: seq<Row>, learner: Learner, noise: Noise, d: Disease)
    ensures var ps := ForecastRows(table, learner, noise, d);
      && (forall k :: 0 <= k < |ps| ==>
            && ps[k].row.disease == d
            && ps[k].row.clinic in Names(OfDisease(table, d))
            && ps[k].row == NextWeek(LastOf(table, ps[k].row.clinic, d), noise.temp(d, k), noise.precip(d, k))
            && FromLastRow(table, learner, ps[k]))
      && (forall i, j :: 0 <= i < j < |ps| ==> LexLess(ps[i].row.clinic, ps[j].row.clinic))
      && (forall name :: name in Names(OfDisease(table, d)) ==> exists k :: 0 <= k < |ps| && ps[k].row.clinic == name)
  {
    var ps := ForecastRows(table, learner, noise, d);
    forall k | 0 <= k < |ps|
      ensures ps[k].row.disease == d && ps[k].row.clinic in Names(OfDisease(table, d))
      ensures ps[k].row == NextWeek(LastOf(table, ps[k].row.clinic, d), noise.temp(d, k), noise.precip(d, k))
      ensures FromLastRow(table, learner, ps[k])
    {
      ForecastRowAt(table, learner, noise, d, k);
    }
    ForecastRowsSorted(table, learner, noise, d);
    ForecastRowsCover(table, learner, noise, d);
  }

  /** No (clinic, disease) pair appears twice among the predictions of one disease. */
  lemma ForecastRowsDistinct(table: seq<Row>, learner: Learner, noise: Noise, d: Disease)
    ensures PairsDistinct(ForecastRows(table, learner, noise, d))
  {
    var ps := ForecastRows(table, learner, noise, d);
    ForecastRowsSorted(table, learner, noise, d);
    forall i, j | 0 <= i < j < |ps|
      ensures ps[i].row.clinic != ps[j].row.clinic || ps[i].row.disease != ps[j].row.disease
    {
      LexIrreflexive(ps[i].row.clinic);
    }
  }

  /** The passes of a list of distinct diseases: the `j`-th is of the `j`-th disease,
      no two are of the same disease, and each predicts only its own disease, with no
      pair twice. */
  lemma PassesDiseases(table: seq<Row>, learner: Learner, noise: Noise, ds: seq<Disease>)
    requires NoDuplicates(ds)
    ensures var passes := Passes(table, learner, noise, ds);
      && (forall j :: 0 <= j < |passes| ==> passes[j].disease == ds[j])
      && (forall i, j :: 0 <= i < j < |passes| ==> passes[i].disease != passes[j].disease)
      && (forall j, p :: 0 <= j < |passes| && p in passes[j].forecasts ==> p.row.disease == passes[j].disease)
      && (forall j :: 0 <= j < |passes| ==> PairsDistinct(passes[j].forecasts))
  {
    var passes := Passes(table, learner, noise, ds);
    forall j | 0 <= j < |passes|
      ensures forall p :: p in passes[j].forecasts ==> p.row.disease == passes[j].disease
      ensures PairsDistinct(passes[j].forecasts)
    {
      ForecastRowsDisease(table, learner, noise, ds[j]);
      ForecastRowsDistinct(table, learner, noise, ds[j]);
    }
  }

  /** A prediction is among those of the first `k` passes exactly when it is among
      those of one of them. */
  lemma {:induction false} AllForecastsMembers(passes: seq<Pass>, k: nat)
    requires k <= |passes|
    ensures forall p :: p in AllForecasts(passes, k) <==> exists j :: 0 <= j < k && p in passes[j].forecasts
  {
    if k > 0 {
      AllForecastsMembers(passes, k - 1);
    }
  }

  /** Every prediction of the passes of `ds` is of one of those diseases and made from
      the last row of its pair. */
  lemma PassesFrom(table: seq<Row>, learner: Learner, noise: Noise, ds: seq<Disease>)
    ensures forall p :: p in AllForecasts(Passes(table, learner, noise, ds), |ds|) ==>
              p.row.disease in ds && FromLastRow(table, learner, p)
  {
    var passes := Passes(table, learner, noise, ds);
    AllForecastsMembers(passes, |ds|);
    forall p | p in AllForecasts(passes, |ds|)
      ensures p.row.disease in ds && FromLastRow(table, learner, p)
    {
      var j :| 0 <= j < |ds| && p in passes[j].forecasts;
      ForecastRowsDisease(table, learner, noise, ds[j]);
      ForecastRowsFrom(table, learner, noise, ds[j]);
    }
  }

  /** When each pass predicts only its own disease, no two passes are of the same
      disease and no pass repeats a pair, the first `k` passes together repeat no pair. */
  lemma {:induction false} AllForecastsDistinct(passes: seq<Pass>, k: nat)
    requires k <= |passes|
    requires forall j, p :: 0 <= j < |passes| && p in passes[j].forecasts ==> p.row.disease == passes[j].disease
    requires forall i, j :: 0 <= i < j < |passes| ==> passes[i].disease != passes[j].disease
    requires forall j :: 0 <= j < |passes| ==> PairsDistinct(passes[j].forecasts)
    ensures PairsDistinct(AllForecasts(passes, k))
  {
    if k > 0 {
      var front := AllForecasts(passes, k - 1);
      var last := passes[k - 1].forecasts;
      var ps := front + last;
      AllForecastsDistinct(passes, k - 1);
      AllForecastsMembers(passes, k - 1);
      forall i, j | 0 <= i < j < |ps|
        ensures ps[i].row.clinic != ps[j].row.clinic || ps[i].row.disease != ps[j].row.disease
      {
        if j < |front| {
          assert ps[i] == front[i] && ps[j] == front[j];
        } else if i < |front| {
          assert ps[i] in front;
          var m :| 0 <= m < k - 1 && ps[i] in passes[m].forecasts;
          assert ps[j] in last;
        } else {
          assert ps[i] == last[i - |front|] && ps[j] == last[j - |front|];
        }
      }
    }
  }

  /** On success every prediction is of a disease of the table and made from the last
      row of its pair by the model of its disease. */
  lemma EngineForecastsFrom(table: seq<Row>, learner: Learner, noise: Noise)
    requires Engine(table, learner, noise).Success?
    ensures forall p :: p in Engine(table, learner, noise).value.predictions ==>
              p.row.disease in DiseaseColumn(table) && FromLastRow(table, learner, p)
  {
    var ds := Unique(DiseaseColumn(table));
    var passes := Passes(table, learner, noise, ds);
    UniqueSpec(DiseaseColumn(table));
    RunValue(passes, |ds|);
    PassesFrom(table, learner, noise, ds);
  }

  /** On success no (clinic, disease) pair gets two predictions. */
  lemma EngineForecastsDistinct(table: seq<Row>, learner: Learner, noise: Noise)
    requires Engine(table, learner, noise).Success?
    ensures PairsDistinct(Engine(table, learner, noise).value.predictions)
  {
    var ds := Unique(DiseaseColumn(table));
    var passes := Passes(table, learner, noise, ds);
    UniqueSpec(DiseaseColumn(table));
    RunValue(passes, |ds|);
    PassesDiseases(table, learner, noise, ds);
    AllForecastsDistinct(passes, |ds|);
  }

  /** On success every (clinic, disease) pair of the table gets a prediction. */
  lemma EngineForecastsCover(table: seq<Row>, learner: Learner, noise: Noise)
    requires Engine(table, learner, noise).Success?
    ensures forall d, name :: d in DiseaseColumn(table) && name in Names(OfDisease(table, d)) ==>
              exists p :: p in Engine(table, learner, noise).value.predictions && p.row.clinic == name && p.row.disease == d
  {
    var ds := Unique(DiseaseColumn(table));
    var passes := Passes(table, learner, noise, ds);
    UniqueSpec(DiseaseColumn(table));
    RunValue(passes, |ds|);
    AllForecastsMembers(passes, |ds|);
    forall d, name | d in DiseaseColumn(table) && name in Names(OfDisease(table, d))
      ensures exists p :: p in AllForecasts(passes, |ds|) && p.row.clinic == name && p.row.disease == d
    {
      var j :| 0 <= j < |ds| && ds[j] == d;
      ForecastRowsCover(table, learner, noise, d);
      ForecastRowsDisease(table, learner, noise, d);
      var m :| 0 <= m < |passes[j].forecasts| && passes[j].forecasts[m].row.clinic == name;
      assert passes[j].forecasts[m] in passes[j].forecasts;
    }
  }

  /** On success the engine returns, for every (clinic, disease) pair of the table,
      exactly one prediction, and each prediction is made from the last row of its pair
      by the model of its disease. */
  lemma EngineForecasts(table: seq<Row>, learner: Learner, noise: Noise)
    requires Engine(table, learner, noise).Success?
    ensures var ps := Engine(table, learner, noise).value.predictions;
      && (forall p :: p in ps ==> p.row.disease in DiseaseColumn(table) && FromLastRow(table, learner, p))
      && PairsDistinct(ps)
      && forall d, name :: d in DiseaseColumn(table) && name in Names(OfDisease(table, d)) ==>
           exists p :: p in ps && p.row.clinic == name && p.row.disease == d
  {
    EngineForecastsFrom(table, learner, noise);
    EngineForecastsDistinct(table, learner, noise);
    EngineForecastsCover(table, learner, noise);
  }

  /** The engine loop: each distinct disease in turn, its predictions appended to one
      list and its risk-factor table recorded; a failing table ends the run. */
  method TrainAndPredict(table: seq<Row>, learner: Learner, noise: Noise) returns (res: Result<Output>)
    ensures res == Engine(table, learner, noise)
  {
    if |table| == 0 {
      return Failure(MissingDiseaseColumn);
    }
    var ds := Unique(DiseaseColumn(table));
    ghost var passes := Passes(table, learner, noise, ds);
    var predictions: seq<Prediction> := [];
    var importances: map<Disease, seq<Importance>> := map[];
    var k := 0;
    while k < |ds|
      invariant 0 <= k <= |ds|
      invariant Run(passes, k) == Success(Output(predictions, importances))
    {
      var d := ds[k];
      assert passes[k] == PassOf(table, learner, noise, d);
      var rows := OfDisease(table, d);
      var fs := Features(d);
      var x := Matrix(rows, fs);
      var y := Targets(rows);
      predictions := predictions + ForecastRows(table, learner, noise, d);
      var t := ImportanceTable(d, learner.importances(x, y));
      if t.Failure? {
        RunFailurePersists(passes, k + 1, |ds|);
        return Failure(t.error);
      }
      importances := importances[d := t.value];
      k := k + 1;
    }
    return Success(Output(predictions, importances));
  }
}
