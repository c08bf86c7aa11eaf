/** The dashboard's data pipeline: the simulated history is built and handed to the
    forecasting engine. */
module Dashboard {
  import opened Records
  import opened Simulator
  import opened Grouping
  import opened Forecast

  /** In a list without repetitions an index holding Dengue, Chikungunya or Influenza
      is the one index that holds it. */
  lemma IndexOfThree(u: seq<Disease>, iD: nat, iC: nat, iI: nat, i: nat)
    requires NoDuplicates(u)
    requires iD < |u| && iC < |u| && iI < |u| && i < |u|
    requires u[iD] == Dengue && u[iC] == Chikungunya && u[iI] == Influenza
    ensures i == iD || i == iC || i == iI
  {
    assert u[i] == u[iD] || u[i] == u[iC] || u[i] == u[iI];
  }

  /** A list of diseases without repetitions that holds Dengue, Chikungunya and
      Influenza in this order is exactly that list. */
  lemma ThreeInOrder(u: seq<Disease>, iD: nat, iC: nat, iI: nat)
    requires NoDuplicates(u)
    requires iD < iC < iI < |u|
    requires u[iD] == Dengue && u[iC] == Chikungunya && u[iI] == Influenza
    ensures u == Diseases
  {
    if |u| > 3 {
      IndexOfThree(u, iD, iC, iI, 0);
      IndexOfThree(u, iD, iC, iI, 1);
      IndexOfThree(u, iD, iC, iI, 2);
      IndexOfThree(u, iD, iC, iI, 3);
      assert false;
    }
  }

  /** Where Dengue, Chikungunya and Influenza first occur in a column that opens with
      52 Dengue rows, then 52 Chikungunya rows, then an Influenza row. */
  lemma OpeningFirstIndices(col: seq<Disease>)
    requires |col| > 104
    requires forall w :: 0 <= w < 104 ==> col[w] == (if w < 52 then Dengue else Chikungunya)
    requires col[104] == Influenza
    ensures Dengue in col && FirstIndex(col, Dengue) == 0
    ensures Chikungunya in col && FirstIndex(col, Chikungunya) == 52
    ensures Influenza in col && FirstIndex(col, Influenza) == 104
  {
    FirstIndexAt(col, Dengue, 0);
    FirstIndexAt(col, Chikungunya, 52);
    FirstIndexAt(col, Influenza, 104);
  }

  /** A disease column that opens with 52 Dengue rows, then 52 Chikungunya rows, then
      an Influenza row has the three diseases as its distinct values, in that order. */
  lemma UniqueOfOpening(col: seq<Disease>)
    requires |col| > 104
    requires forall w :: 0 <= w < 104 ==> col[w] == (if w < 52 then Dengue else Chikungunya)
    requires col[104] == Influenza
    ensures Unique(col) == Diseases
  {
    var u := Unique(col);
    OpeningFirstIndices(col);
    UniqueSpec(col);
    var iD :| 0 <= iD < |u| && u[iD] == Dengue;
    var iC :| 0 <= iC < |u| && u[iC] == Chikungunya;
    var iI :| 0 <= iI < |u| && u[iI] == Influenza;
    if !(iD < iC < iI) {
      assert false;
    }
    ThreeInOrder(u, iD, iC, iI);
  }

  /** The first clinic's Dengue and Chikungunya series open the history, followed by
      its Influenza series. */
  lemma HistoryOpening(clinics: seq<Clinic>, draws: seq<seq<SeriesDraw>>, wave: int -> real)
    requires DrawsFit(clinics, draws)
    requires |clinics| > 0
    ensures var col := DiseaseColumn(History(clinics, draws, wave));
      && |col| > 104
      && (forall w :: 0 <= w < 104 ==> col[w] == (if w < 52 then Dengue else Chikungunya))
      && col[104] == Influenza
  {
    HistoryRowAt(clinics, draws, wave, 0, 2, 0);
    forall w | 0 <= w < 104
      ensures History(clinics, draws, wave)[w].disease == (if w < 52 then Dengue else Chikungunya)
    {
      if w < 52 {
        HistoryRowAt(clinics, draws, wave, 0, 0, w);
      } else {
        HistoryRowAt(clinics, draws, wave, 0, 1, w - 52);
      }
    }
  }

  /** In the simulated history of at least one clinic the diseases first appear in
      the order Dengue, Chikungunya, Influenza, so the engine trains them in that order. */
  lemma HistoryDiseases(clinics: seq<Clinic>, draws: seq<seq<SeriesDraw>>, wave: int -> real)
    requires DrawsFit(clinics, draws)
    requires |clinics| > 0
    ensures Unique(DiseaseColumn(History(clinics, draws, wave))) == Diseases
  {
    HistoryOpening(clinics, draws, wave);
    UniqueOfOpening(DiseaseColumn(History(clinics, draws, wave)));
  }

  /** On the simulated history of at least one clinic the engine never reports a
      missing disease column: it succeeds exactly when each of the three diseases gets
      as many importances as it has features, and then returns one risk-factor table
      for each of them. */
  lemma HistoryEngine(clinics: seq<Clinic>, draws: seq<seq<SeriesDraw>>, wave: int -> real,
                      learner: Learner, noise: Noise)
    requires DrawsFit(clinics, draws)
    requires |clinics| > 0
    ensures var h := History(clinics, draws, wave);
      && (Engine(h, learner, noise).Success? <==>
            forall d :: |Weights(h, learner, d)| == |Features(d)|)
      && (Engine(h, learner, noise).Failure? ==> Engine(h, learner, noise).error != MissingDiseaseColumn)
      && (Engine(h, learner, noise).Success? ==>
            forall d :: d in Engine(h, learner, noise).value.importances)
  {
    var h := History(clinics, draws, wave);
    HistoryDiseases(clinics, draws, wave);
    HistoryLength(clinics, draws, wave);
    UniqueSpec(DiseaseColumn(h));
    assert forall d :: d in Diseases by {
      forall d: Disease ensures d in Diseases {
        assert d == Diseases[0] || d == Diseases[1] || d == Diseases[2];
      }
    }
    EngineSucceeds(h, learner, noise);
    if Engine(h, learner, noise).Failure? {
      EngineFailure(h, learner, noise);
    } else {
      EngineImportances(h, learner, noise);
    }
  }

  /** An empty registry gives an empty history, which has no disease column, so the
      engine fails with that error. */
  lemma EmptyRegistry(clinics: seq<Clinic>, draws: seq<seq<SeriesDraw>>, wave: int -> real,
                      learner: Learner, noise: Noise)
    requires DrawsFit(clinics, draws)
    requires |clinics| == 0
    ensures History(clinics, draws, wave) == []
    ensures Engine(History(clinics, draws, wave), learner, noise) == Failure(MissingDiseaseColumn)
  {
    HistoryLength(clinics, draws, wave);
  }

  /** The simulated history: 156 rows per clinic, no negative count or precipitation,
      and, for at least one clinic, the diseases in the order Dengue, Chikungunya,
      Influenza. */
  lemma HistoryShape(clinics: seq<Clinic>, draws: seq<seq<SeriesDraw>>, wave: int -> real)
    requires DrawsFit(clinics, draws)
    ensures var h := History(clinics, draws, wave);
      && |h| == |clinics| * 156
      && (forall r :: r in h ==> 0 <= r.cases && 0.0 <= r.precipitation)
      && (|clinics| > 0 ==> Unique(DiseaseColumn(h)) == Diseases)
  {
    HistoryLength(clinics, draws, wave);
    HistoryNonNegative(clinics, draws, wave);
    if |clinics| > 0 {
      HistoryDiseases(clinics, draws, wave);
    }
  }

  /** The dashboard's start-up: simulate the history, then train and predict on it. */
  method Load(clinics: seq<Clinic>, draws: seq<seq<SeriesDraw>>, wave: int -> real,
              learner: Learner, noise: Noise)
    returns (history: seq<Row>, res: Result<Output>)
    requires DrawsFit(clinics, draws)
    ensures history == History(clinics, draws, wave)
    ensures |history| == |clinics| * 156
    ensures forall r :: r in history ==> 0 <= r.cases && 0.0 <= r.precipitation
    ensures |clinics| > 0 ==> Unique(DiseaseColumn(history)) == Diseases
    ensures res == Engine(history, learner, noise)
  {
    history := SimulateClinics(clinics, draws, wave);
    HistoryShape(clinics, draws, wave);
    res := TrainAndPredict(history, learner, noise);
  }
}
