/** The synthetic history builder: for every clinic of the registry, for every disease,
    for each of the 52 weekly dates, one row is appended to the history. The random
    draws and the sine of the seasonal term are inputs; everything else (the clamps,
    the case formula, the week-to-week carry of the previous count and the shrinking
    Chikungunya base) is modelled exactly over the reals. */
module Simulator {
  import opened Records

  /** The five random values drawn in one week of one series, in the order the
      source draws them: temperature uniform and normal, precipitation uniform and
      normal, and the observation noise of the case count. */
  datatype WeekDraw = WeekDraw(
    tempUniform: real,
    tempNormal: real,
    precipUniform: real,
    precipNormal: real,
    caseNormal: real)

  /** The draws of one (clinic, disease) series: the density uniform, drawn once,
      then one WeekDraw per weekly date. */
  datatype SeriesDraw = SeriesDraw(densityUniform: real, weeks: seq<WeekDraw>)

  /** Day of the year of weekly date `week`: weekly dates anchored on Sundays from
      2024-01-01 start on 2024-01-07, and the 52 of them stay inside 2024. */
  function DayOfYear(week: nat): (d: int)
    ensures week < Weeks ==> 7 <= d <= 364
  {
    7 + 7 * week
  }

  /** Weekly mean temperature: uniform draw plus normal noise. */
  function WeekTemperature(w: WeekDraw): real
  {
    w.tempUniform + w.tempNormal
  }

  /** Weekly precipitation, clamped so that it is never negative. */
  function WeekPrecipitation(w: WeekDraw): (p: real)
    ensures 0.0 <= p
    ensures p == w.precipUniform + w.precipNormal || (p == 0.0 && w.precipUniform + w.precipNormal < 0.0)
  {
    Max0(w.precipUniform + w.precipNormal)
  }

  /** Seasonal factor of a disease on a given day of the year. `wave(x)` stands for
      sin(2 * pi * x / 365.25): the warm-season diseases peak around day 80 + 91,
      Influenza around day 170 + 91. */
  function Seasonal(d: Disease, day: int, wave: int -> real): (s: real)
    ensures d != Influenza && -1.0 <= wave(day - 80) <= 1.0 ==> 0.2 <= s <= 1.8
    ensures d == Influenza && -1.0 <= wave(day - 170) <= 1.0 ==> 0.1 <= s <= 1.9
  {
    match d
    case Dengue => 1.0 + 0.8 * wave(day - 80)
    case Chikungunya => 1.0 + 0.8 * wave(day - 80)
    case Influenza => 1.0 + 0.9 * wave(day - 170)
  }

  /** Climate factor: grows with temperature and precipitation for the two
      mosquito-borne diseases, and with the inverse of temperature for Influenza. */
  function Climate(d: Disease, temp: real, precip: real): (f: real)
    requires d == Influenza ==> temp != 0.0
    ensures d == Influenza ==> f * temp == 28.0
    ensures d == Influenza && 0.0 < temp ==> 0.0 < f
    ensures d != Influenza && 0.0 <= temp && 0.0 <= precip ==> 0.0 <= f
  {
    if d == Influenza then 28.0 / temp else temp / 28.0 + precip / 150.0
  }

  /** The product of two non-negative reals is non-negative. */
  lemma NonNegativeProduct(a: real, b: real)
    ensures 0.0 <= a && 0.0 <= b ==> 0.0 <= a * b
  {
    if 0.0 <= a && 0.0 <= b {
      assert 0.0 * b <= a * b;
    }
  }

  /** The case formula before truncation: base volume plus the autocorrelation term,
      times the product of the seasonal and climate factors, plus noise. */
  function CaseFormula(base: real, autocorrelation: real, seasonal: real, climate: real, noise: real): (r: real)
    ensures 0.0 <= base + autocorrelation && 0.0 <= seasonal * climate ==> noise <= r
    ensures seasonal * climate == 1.0 ==> r == base + autocorrelation + noise
  {
    NonNegativeProduct(base + autocorrelation, seasonal * climate);
    (base + autocorrelation) * (seasonal * climate) + noise
  }

  /** Case count of one week: base volume plus 5% of last week's count, scaled by the
      seasonal and climate factors, plus noise, then truncated and clamped at zero. */
  function WeekCases(d: Disease, base: real, prev: int, temp: real, precip: real,
                     seasonal: real, noise: real): (n: int)
    requires d == Influenza ==> temp != 0.0
    ensures 0 <= n
  {
    ClampTrunc(CaseFormula(base, prev as real * 0.05, seasonal, Climate(d, temp, precip), noise))
  }

  /** The source divides by the temperature only in Influenza series. */
  predicate TemperaturesUsable(d: Disease, ws: seq<WeekDraw>)
  {
    d == Influenza ==> forall k :: 0 <= k < |ws| ==> WeekTemperature(ws[k]) != 0.0
  }

  /** Population density of a series before truncation: drawn once per
      (clinic, disease) and scaled by the clinic's risk factor. */
  function DensityBase(c: Clinic, sd: SeriesDraw): (r: real)
    ensures 0.0 <= sd.densityUniform && 0.0 <= c.riskFactor ==> 0.0 <= r
  {
    sd.densityUniform * c.riskFactor
  }

  /** Base weekly case volume of a series before the week loop: 0.05% of the
      density draw, scaled by the square of the clinic's risk factor. */
  function InitialBase(c: Clinic, sd: SeriesDraw): (r: real)
    ensures r == 0.0005 * sd.densityUniform * (c.riskFactor * c.riskFactor)
    ensures 0.0 <= sd.densityUniform ==> 0.0 <= r
  {
    (DensityBase(c, sd) * 0.0005) * c.riskFactor
  }

  /** `x` to the power `n`. */
  function Pow(x: real, n: nat): real
  {
    if n == 0 then 1.0 else x * Pow(x, n - 1)
  }

  /** The base volume after `k` weekly steps: Chikungunya multiplies it by 0.6 at the
      start of every week, the other diseases keep it. */
  function BaseAfter(d: Disease, initial: real, k: nat): real
  {
    if d == Chikungunya then initial * Pow(0.6, k) else initial
  }

  /** The loop state of one series after some weeks: the rows appended so far, the
      previous-week count carried to the next week, and the current base volume. */
  datatype SeriesState = SeriesState(rows: seq<Row>, prev: int, base: real)

  /** The state of the series of clinic `c` and disease `d` after its first `k` weeks. */
  function SeriesUpTo(c: Clinic, d: Disease, sd: SeriesDraw, wave: int -> real, k: nat): (s: SeriesState)
    requires k <= |sd.weeks|
    requires TemperaturesUsable(d, sd.weeks)
    ensures |s.rows| == k
  {
    if k == 0 then SeriesState([], 0, InitialBase(c, sd))
    else
      var s := SeriesUpTo(c, d, sd, wave, k - 1);
      var w := sd.weeks[k - 1];
      var base := if d == Chikungunya then s.base * 0.6 else s.base;
      var temp := WeekTemperature(w);
      var precip := WeekPrecipitation(w);
      var cases := WeekCases(d, base, s.prev, temp, precip, Seasonal(d, DayOfYear(k - 1), wave), w.caseNormal);
      var row := Row(k - 1, c.name, d, cases, temp, precip, Trunc(DensityBase(c, sd)), s.prev, c.lat, c.lon);
      SeriesState(s.rows + [row], cases, base)
  }

  /** All rows of one (clinic, disease) series. */
  function Series(c: Clinic, d: Disease, sd: SeriesDraw, wave: int -> real): (rows: seq<Row>)
    requires TemperaturesUsable(d, sd.weeks)
    ensures |rows| == |sd.weeks|
  {
    SeriesUpTo(c, d, sd, wave, |sd.weeks|).rows
  }

  /** The shape the source's draws have: one list of three series draws per clinic,
      52 weeks each, and a usable temperature wherever the source divides by it. */
  predicate DrawsFit(clinics: seq<Clinic>, draws: seq<seq<SeriesDraw>>)
  {
    && |draws| == |clinics|
    && (forall i :: 0 <= i < |draws| ==> |draws[i]| == |Diseases|)
    && (forall i, j :: 0 <= i < |draws| && 0 <= j < |draws[i]| ==>
          |draws[i][j].weeks| == Weeks && TemperaturesUsable(Diseases[j], draws[i][j].weeks))
  }

  /** Blocks of rows laid end to end, in order. */
  function Concat(blocks: seq<seq<Row>>): seq<Row>
  {
    if |blocks| == 0 then [] else Concat(blocks[..|blocks| - 1]) + blocks[|blocks| - 1]
  }

  /** The three series of one clinic, in disease order. */
  function ClinicSeries(c: Clinic, sds: seq<SeriesDraw>, wave: int -> real): (blocks: seq<seq<Row>>)
    requires |sds| == |Diseases|
    requires forall j :: 0 <= j < |sds| ==> TemperaturesUsable(Diseases[j], sds[j].weeks)
    ensures |blocks| == |Diseases|
  {
    seq(|Diseases|, j requires 0 <= j < |Diseases| => Series(c, Diseases[j], sds[j], wave))
  }

  /** The series of the first `i` clinics, clinic after clinic. */
  function SeriesOfClinics(clinics: seq<Clinic>, draws: seq<seq<SeriesDraw>>, wave: int -> real, i: nat)
    : (blocks: seq<seq<Row>>)
    requires DrawsFit(clinics, draws)
    requires i <= |clinics|
    ensures |blocks| == 3 * i
  {
    if i == 0 then []
    else SeriesOfClinics(clinics, draws, wave, i - 1) + ClinicSeries(clinics[i - 1], draws[i - 1], wave)
  }

  /** The whole history table: every series of every clinic, laid end to end. */
  function History(clinics: seq<Clinic>, draws: seq<seq<SeriesDraw>>, wave: int -> real): seq<Row>
    requires DrawsFit(clinics, draws)
  {
    Concat(SeriesOfClinics(clinics, draws, wave, |clinics|))
  }

  /** What row `w` of a series holds: its week index, the series' clinic, disease and
      coordinates, the density fixed for the series, that week's weather, and a
      non-negative count computed from the base volume of that week and the count
      carried from the row before (zero for the first week). */
  ghost predicate SeriesRow(c: Clinic, d: Disease, sd: SeriesDraw, wave: int -> real, rows: seq<Row>, w: nat)
    requires w < |rows| && w < |sd.weeks|
    requires TemperaturesUsable(d, sd.weeks)
  {
    var r := rows[w];
    && r.week == w && r.clinic == c.name && r.disease == d
    && r.lat == c.lat && r.lon == c.lon
    && r.density == Trunc(DensityBase(c, sd))
    && r.temperature == WeekTemperature(sd.weeks[w])
    && r.precipitation == WeekPrecipitation(sd.weeks[w])
    && r.previousCases == (if w == 0 then 0 else rows[w - 1].cases)
    && 0 <= r.cases
    && r.cases == WeekCases(d, BaseAfter(d, InitialBase(c, sd), w + 1), r.previousCases, r.temperature,
                            r.precipitation, Seasonal(d, DayOfYear(w), wave), sd.weeks[w].caseNormal)
  }

  /** SeriesRow only looks at row `w` and the row before it, so it survives extending
      the rows. */
  lemma SeriesRowExtend(c: Clinic, d: Disease, sd: SeriesDraw, wave: int -> real, s: seq<Row>, rows: seq<Row>, w: nat)
    requires w < |s| <= |rows| && |s| <= |sd.weeks|
    requires TemperaturesUsable(d, sd.weeks)
    requires rows[..|s|] == s
    requires SeriesRow(c, d, sd, wave, s, w)
    ensures SeriesRow(c, d, sd, wave, rows, w)
  {
    assert rows[w] == s[w];
    assert w > 0 ==> rows[w - 1] == s[w - 1];
  }

  /** One week of the series loop, its rows: the week keeps the earlier rows and
      carries the count of the row it appends. */
  lemma SeriesStep(c: Clinic, d: Disease, sd: SeriesDraw, wave: int -> real, k: nat)
    requires 0 < k <= |sd.weeks|
    requires TemperaturesUsable(d, sd.weeks)
    ensures SeriesUpTo(c, d, sd, wave, k).rows[..k - 1] == SeriesUpTo(c, d, sd, wave, k - 1).rows
    ensures SeriesUpTo(c, d, sd, wave, k).prev == SeriesUpTo(c, d, sd, wave, k).rows[k - 1].cases
  {
    var s := SeriesUpTo(c, d, sd, wave, k - 1);
    var rows := SeriesUpTo(c, d, sd, wave, k).rows;
    assert rows == s.rows + [rows[k - 1]];
  }

  /** One week of the series loop, its base volume: if the state before week `k - 1`
      holds the base volume after `k - 1` steps, the next one holds that after `k`. */
  lemma SeriesStepBase(c: Clinic, d: Disease, sd: SeriesDraw, wave: int -> real, k: nat)
    requires 0 < k <= |sd.weeks|
    requires TemperaturesUsable(d, sd.weeks)
    requires SeriesUpTo(c, d, sd, wave, k - 1).base == BaseAfter(d, InitialBase(c, sd), k - 1)
    ensures SeriesUpTo(c, d, sd, wave, k).base == BaseAfter(d, InitialBase(c, sd), k)
  {
    var initial := InitialBase(c, sd);
    BaseAfterStep(d, initial, k - 1);
    assert SeriesUpTo(c, d, sd, wave, k).base ==
      if d == Chikungunya then SeriesUpTo(c, d, sd, wave, k - 1).base * 0.6 else SeriesUpTo(c, d, sd, wave, k - 1).base;
  }

  /** The base volume after one more step. */
  lemma BaseAfterStep(d: Disease, initial: real, n: nat)
    ensures BaseAfter(d, initial, n + 1) == if d == Chikungunya then BaseAfter(d, initial, n) * 0.6 else BaseAfter(d, initial, n)
  {
    if d == Chikungunya {
      DecayStep(BaseAfter(d, initial, n), initial, n);
    }
  }

  /** One more 0.6 decay step of a base volume. */
  lemma DecayStep(base: real, initial: real, n: nat)
    requires base == initial * Pow(0.6, n)
    ensures base * 0.6 == initial * Pow(0.6, n + 1)
  {
    calc {
      base * 0.6;
      initial * Pow(0.6, n) * 0.6;
      initial * (0.6 * Pow(0.6, n));
    }
  }

  /** One week of the series loop, its row part: under the same facts about the state
      before week `k - 1`, the row the week appends is as SeriesRow describes. */
  lemma SeriesStepRow(c: Clinic, d: Disease, sd: SeriesDraw, wave: int -> real, k: nat)
    requires 0 < k <= |sd.weeks|
    requires TemperaturesUsable(d, sd.weeks)
    requires SeriesUpTo(c, d, sd, wave, k - 1).prev ==
               if k == 1 then 0 else SeriesUpTo(c, d, sd, wave, k - 1).rows[k - 2].cases
    requires SeriesUpTo(c, d, sd, wave, k - 1).base == BaseAfter(d, InitialBase(c, sd), k - 1)
    ensures SeriesRow(c, d, sd, wave, SeriesUpTo(c, d, sd, wave, k).rows, k - 1)
  {
    SeriesStep(c, d, sd, wave, k);
    SeriesStepBase(c, d, sd, wave, k);
    var s := SeriesUpTo(c, d, sd, wave, k - 1);
    var rows := SeriesUpTo(c, d, sd, wave, k).rows;
    assert rows[k - 1].previousCases == s.prev;
    assert k > 1 ==> rows[k - 2] == s.rows[k - 2];
  }

  /** The loop state after `k` weeks carries the count of its last row (zero before
      the first week) and the base volume after `k` steps. */
  lemma {:induction false} SeriesUpToState(c: Clinic, d: Disease, sd: SeriesDraw, wave: int -> real, k: nat)
    requires k <= |sd.weeks|
    requires TemperaturesUsable(d, sd.weeks)
    ensures SeriesUpTo(c, d, sd, wave, k).prev == if k == 0 then 0 else SeriesUpTo(c, d, sd, wave, k).rows[k - 1].cases
    ensures SeriesUpTo(c, d, sd, wave, k).base == BaseAfter(d, InitialBase(c, sd), k)
  {
    if k > 0 {
      SeriesUpToState(c, d, sd, wave, k - 1);
      SeriesStep(c, d, sd, wave, k);
      SeriesStepBase(c, d, sd, wave, k);
    }
  }

  /** Every row of the loop state after `k` weeks is as SeriesRow describes. */
  lemma {:induction false} SeriesUpToRows(c: Clinic, d: Disease, sd: SeriesDraw, wave: int -> real, k: nat)
    requires k <= |sd.weeks|
    requires TemperaturesUsable(d, sd.weeks)
    ensures forall w :: 0 <= w < k ==> SeriesRow(c, d, sd, wave, SeriesUpTo(c, d, sd, wave, k).rows, w)
  {
    if k > 0 {
      SeriesUpToRows(c, d, sd, wave, k - 1);
      SeriesUpToState(c, d, sd, wave, k - 1);
      SeriesStep(c, d, sd, wave, k);
      SeriesStepBase(c, d, sd, wave, k);
      SeriesStepRow(c, d, sd, wave, k);
      var s := SeriesUpTo(c, d, sd, wave, k - 1).rows;
      var rows := SeriesUpTo(c, d, sd, wave, k).rows;
      forall w | 0 <= w < k - 1
        ensures SeriesRow(c, d, sd, wave, rows, w)
      {
        SeriesRowExtend(c, d, sd, wave, s, rows, w);
      }
    }
  }

  /** Row `w` of a series, for every week `w`: week index `w`, the series' clinic,
      disease, coordinates and density, that week's weather, the count of week `w - 1`
      carried as previous count (0 in the first week), and a count that is the case
      formula with the base volume InitialBase * 0.6^(w+1) for Chikungunya and
      InitialBase otherwise, truncated and clamped at zero. */
  lemma SeriesAt(c: Clinic, d: Disease, sd: SeriesDraw, wave: int -> real, w: nat)
    requires TemperaturesUsable(d, sd.weeks)
    requires w < |sd.weeks|
    ensures SeriesRow(c, d, sd, wave, Series(c, d, sd, wave), w)
  {
    SeriesUpToRows(c, d, sd, wave, |sd.weeks|);
  }

  /** Appending one block to the end appends its rows to the end. */
  lemma ConcatSnoc(blocks: seq<seq<Row>>, last: seq<Row>)
    ensures Concat(blocks + [last]) == Concat(blocks) + last
  {
    assert (blocks + [last])[..|blocks|] == blocks;
  }

  /** Extending a prefix of `b` by one block is appending that block. */
  lemma PrefixSnoc(a: seq<seq<Row>>, b: seq<seq<Row>>, j: nat)
    requires j < |b|
    ensures a + b[..j + 1] == (a + b[..j]) + [b[j]]
  {
    assert b[..j + 1] == b[..j] + [b[j]];
  }

  /** Blocks of one week-horizon each, laid end to end: row `w` of block `b` sits at
      position b * 52 + w. */
  lemma {:induction false} ConcatLayout(blocks: seq<seq<Row>>)
    requires forall b :: 0 <= b < |blocks| ==> |blocks[b]| == Weeks
    ensures |Concat(blocks)| == 52 * |blocks|
    ensures forall b, w :: 0 <= b < |blocks| && 0 <= w < 52 ==> Concat(blocks)[b * 52 + w] == blocks[b][w]
  {
    if |blocks| > 0 {
      var n := |blocks| - 1;
      var front := blocks[..n];
      ConcatLayout(front);
      forall b, w | 0 <= b < |blocks| && 0 <= w < 52
        ensures Concat(blocks)[b * 52 + w] == blocks[b][w]
      {
        if b < n {
          assert Concat(front)[b * 52 + w] == front[b][w];
        } else {
          assert b * 52 + w == |Concat(front)| + w;
        }
      }
    }
  }

  /** The series of the first `i` clinics each last the whole horizon. */
  lemma {:induction false} SeriesOfClinicsLengths(clinics: seq<Clinic>, draws: seq<seq<SeriesDraw>>, wave: int -> real, i: nat)
    requires DrawsFit(clinics, draws)
    requires i <= |clinics|
    ensures forall b :: 0 <= b < 3 * i ==> |SeriesOfClinics(clinics, draws, wave, i)[b]| == Weeks
  {
    if i > 0 {
      SeriesOfClinicsLengths(clinics, draws, wave, i - 1);
      var front := SeriesOfClinics(clinics, draws, wave, i - 1);
      var last := ClinicSeries(clinics[i - 1], draws[i - 1], wave);
      assert SeriesOfClinics(clinics, draws, wave, i) == front + last;
      forall b | 3 * (i - 1) <= b < 3 * i
        ensures |(front + last)[b]| == Weeks
      {
        assert (front + last)[b] == last[b - 3 * (i - 1)];
      }
    }
  }

  /** The series of disease number `di` of clinic number `ci` is block 3 * ci + di of
      the series of the first `i` clinics. */
  lemma {:induction false} SeriesOfClinicsLayout(clinics: seq<Clinic>, draws: seq<seq<SeriesDraw>>, wave: int -> real, i: nat)
    requires DrawsFit(clinics, draws)
    requires i <= |clinics|
    ensures forall ci, di :: 0 <= ci < i && 0 <= di < 3 ==>
              SeriesOfClinics(clinics, draws, wave, i)[3 * ci + di] == Series(clinics[ci], Diseases[di], draws[ci][di], wave)
  {
    if i > 0 {
      SeriesOfClinicsLayout(clinics, draws, wave, i - 1);
      var front := SeriesOfClinics(clinics, draws, wave, i - 1);
      var last := ClinicSeries(clinics[i - 1], draws[i - 1], wave);
      assert SeriesOfClinics(clinics, draws, wave, i) == front + last;
      forall ci, di | 0 <= ci < i && 0 <= di < 3
        ensures (front + last)[3 * ci + di] == Series(clinics[ci], Diseases[di], draws[ci][di], wave)
      {
        if ci < i - 1 {
          assert (front + last)[3 * ci + di] == front[3 * ci + di];
        } else {
          assert (front + last)[3 * ci + di] == last[di];
        }
      }
    }
  }

  /** Position in the history of week `w` of disease number `di` of clinic number `ci`:
      each clinic contributes 3 * 52 = 156 rows, each of its series 52. */
  function Position(ci: nat, di: nat, w: nat): nat
  {
    ci * 156 + di * 52 + w
  }

  /** Every position in the history splits into clinic number, disease number and week. */
  lemma PositionSplit(p: nat)
    ensures p == Position(p / 156, (p % 156) / 52, p % 52)
    ensures (p % 156) / 52 < 3 && p % 52 < 52
    ensures p % 52 > 0 ==> p - 1 == Position(p / 156, (p % 156) / 52, p % 52 - 1)
  {
  }

  /** The history holds exactly 3 * 52 rows per clinic, and week `w` of disease number
      `di` of clinic number `ci` is row w of that series, at Position(ci, di, w). */
  lemma HistorySeriesAt(clinics: seq<Clinic>, draws: seq<seq<SeriesDraw>>, wave: int -> real, ci: nat, di: nat, w: nat)
    requires DrawsFit(clinics, draws)
    requires ci < |clinics| && di < |Diseases| && w < Weeks
    ensures |History(clinics, draws, wave)| == 156 * |clinics|
    ensures History(clinics, draws, wave)[Position(ci, di, w)] == Series(clinics[ci], Diseases[di], draws[ci][di], wave)[w]
  {
    SeriesOfClinicsLengths(clinics, draws, wave, |clinics|);
    SeriesOfClinicsLayout(clinics, draws, wave, |clinics|);
    ConcatLayout(SeriesOfClinics(clinics, draws, wave, |clinics|));
    assert Position(ci, di, w) == (3 * ci + di) * 52 + w;
  }

  /** The history holds exactly |clinics| * 3 * 52 rows. */
  lemma HistoryLength(clinics: seq<Clinic>, draws: seq<seq<SeriesDraw>>, wave: int -> real)
    requires DrawsFit(clinics, draws)
    ensures |History(clinics, draws, wave)| == |clinics| * |Diseases| * Weeks
  {
    SeriesOfClinicsLengths(clinics, draws, wave, |clinics|);
    SeriesOfClinicsLayout(clinics, draws, wave, |clinics|);
    ConcatLayout(SeriesOfClinics(clinics, draws, wave, |clinics|));
  }

  /** The row of week `w` of disease number `di` of clinic number `ci`, at
      Position(ci, di, w) of the history: it names that clinic and disease, holds the
      clinic's coordinates, the density drawn for the pair and that week's weather; its
      previous count is 0 in the first week and the count of the row just before it
      otherwise; its count is the week's case formula, never negative. */
  lemma HistoryRowAt(clinics: seq<Clinic>, draws: seq<seq<SeriesDraw>>, wave: int -> real, ci: nat, di: nat, w: nat)
    requires DrawsFit(clinics, draws)
    requires ci < |clinics| && di < |Diseases| && w < Weeks
    ensures var h := History(clinics, draws, wave);
      var p := Position(ci, di, w);
      var c, d, sd := clinics[ci], Diseases[di], draws[ci][di];
      && p < |h|
      && h[p].week == w && h[p].clinic == c.name && h[p].disease == d
      && h[p].lat == c.lat && h[p].lon == c.lon
      && h[p].density == Trunc(DensityBase(c, sd))
      && h[p].temperature == WeekTemperature(sd.weeks[w])
      && h[p].precipitation == WeekPrecipitation(sd.weeks[w])
      && h[p].previousCases == (if w == 0 then 0 else h[p - 1].cases)
      && 0 <= h[p].cases
      && h[p].cases == WeekCases(d, BaseAfter(d, InitialBase(c, sd), w + 1), h[p].previousCases,
                                 h[p].temperature, h[p].precipitation, Seasonal(d, DayOfYear(w), wave),
                                 sd.weeks[w].caseNormal)
  {
    var c, d, sd := clinics[ci], Diseases[di], draws[ci][di];
    HistorySeriesAt(clinics, draws, wave, ci, di, w);
    if w > 0 {
      HistorySeriesAt(clinics, draws, wave, ci, di, w - 1);
    }
    SeriesAt(c, d, sd, wave, w);
  }

  /** Whatever the draws, every row of the history has a non-negative count and
      non-negative precipitation. */
  lemma HistoryNonNegative(clinics: seq<Clinic>, draws: seq<seq<SeriesDraw>>, wave: int -> real)
    requires DrawsFit(clinics, draws)
    ensures forall r :: r in History(clinics, draws, wave) ==> 0 <= r.cases && 0.0 <= r.precipitation
  {
    var h := History(clinics, draws, wave);
    HistoryLength(clinics, draws, wave);
    forall r | r in h
      ensures 0 <= r.cases && 0.0 <= r.precipitation
    {
      var p :| 0 <= p < |h| && h[p] == r;
      PositionSplit(p);
      HistoryRowAt(clinics, draws, wave, p / 156, (p % 156) / 52, p % 52);
    }
  }

  /** The week loop of one (clinic, disease) series: the density and the base volume
      are fixed before the loop, the previous count starts at zero, and each week
      appends one row and carries its count to the next week. */
  method AppendSeries(table: seq<Row>, c: Clinic, d: Disease, sd: SeriesDraw, wave: int -> real)
    returns (rows: seq<Row>)
    requires TemperaturesUsable(d, sd.weeks)
    ensures rows == table + Series(c, d, sd, wave)
  {
    rows := table;
    var density := Trunc(DensityBase(c, sd));
    var base := InitialBase(c, sd);
    var prev := 0;
    var k := 0;
    while k < |sd.weeks|
      invariant 0 <= k <= |sd.weeks|
      invariant rows == table + SeriesUpTo(c, d, sd, wave, k).rows
      invariant prev == SeriesUpTo(c, d, sd, wave, k).prev
      invariant base == SeriesUpTo(c, d, sd, wave, k).base
    {
      ghost var s := SeriesUpTo(c, d, sd, wave, k);
      var w := sd.weeks[k];
      var temp := w.tempUniform + w.tempNormal;
      var precip := Max0(w.precipUniform + w.precipNormal);
      var climate := 1.0;
      var seasonal := 1.0;
      var autocorrelation := prev as real * 0.05;
      if d == Dengue || d == Chikungunya {
        seasonal := 1.0 + 0.8 * wave(DayOfYear(k) - 80);
        climate := temp / 28.0 + precip / 150.0;
        if d == Chikungunya {
          base := base * 0.6;
        }
      } else if d == Influenza {
        seasonal := 1.0 + 0.9 * wave(DayOfYear(k) - 170);
        climate := 28.0 / temp;
      }
      assert seasonal == Seasonal(d, DayOfYear(k), wave) && climate == Climate(d, temp, precip);
      var cases := ClampTrunc(CaseFormula(base, autocorrelation, seasonal, climate, w.caseNormal));
      assert cases == WeekCases(d, base, prev, temp, precip, seasonal, w.caseNormal);
      var row := Row(k, c.name, d, cases, temp, precip, density, prev, c.lat, c.lon);
      assert SeriesUpTo(c, d, sd, wave, k + 1) == SeriesState(s.rows + [row], cases, base);
      rows := rows + [row];
      assert rows == table + (s.rows + [row]);
      prev := cases;
      k := k + 1;
    }
  }

  /** The disease loop of one clinic: its three series, in disease order, appended to
      the rows of the clinics before it. */
  method AppendClinic(table: seq<Row>, ghost done: seq<seq<Row>>, c: Clinic, sds: seq<SeriesDraw>, wave: int -> real)
    returns (rows: seq<Row>)
    requires |sds| == |Diseases|
    requires forall j :: 0 <= j < |sds| ==> TemperaturesUsable(Diseases[j], sds[j].weeks)
    requires table == Concat(done)
    ensures rows == Concat(done + ClinicSeries(c, sds, wave))
  {
    ghost var clinic := ClinicSeries(c, sds, wave);
    rows := table;
    var j := 0;
    assert done + clinic[..0] == done;
    while j < |Diseases|
      invariant 0 <= j <= |Diseases|
      invariant rows == Concat(done + clinic[..j])
    {
      rows := AppendSeries(rows, c, Diseases[j], sds[j], wave);
      ConcatSnoc(done + clinic[..j], clinic[j]);
      PrefixSnoc(done, clinic, j);
      j := j + 1;
    }
    assert clinic[..j] == clinic;
  }

  /** The history builder: clinics in registry order, then the three diseases, each
      series appended to one growing table. */
  method SimulateClinics(clinics: seq<Clinic>, draws: seq<seq<SeriesDraw>>, wave: int -> real)
    returns (rows: seq<Row>)
    requires DrawsFit(clinics, draws)
    ensures rows == History(clinics, draws, wave)
  {
    rows := [];
    var i := 0;
    while i < |clinics|
      invariant 0 <= i <= |clinics|
      invariant rows == Concat(SeriesOfClinics(clinics, draws, wave, i))
    {
      rows := AppendClinic(rows, SeriesOfClinics(clinics, draws, wave, i), clinics[i], draws[i], wave);
      i := i + 1;
    }
  }
}
