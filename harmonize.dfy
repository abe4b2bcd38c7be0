/** `harmonize_dataset` and its helpers: drop the sites that have a single
    row, drop incomplete rows, hand the feature matrix and the covariate
    table to a site-effect adjuster (ComBat in the original, a parameter
    here), and write the adjusted values back into a copy of the table. */
module Harmonize {
  import opened Frames

  /** The `1e-8` that keeps the global correction factor finite. */
  const Eps: real := 0.00000001

  /** A matrix of reals: a sequence of rows. */
  type Matrix = seq<seq<real>>

  /** The covariate table the adjuster receives: column labels and one
      list of cells per retained row. A call that reaches the adjuster has
      distinct covariate labels, none of them `SITE` (see `Harmonized`). */
  datatype CovTable = CovTable(columns: seq<Datum>, values: seq<seq<Datum>>)

  /** The site-effect estimator: data matrix and covariates in, adjusted
      matrix out. */
  type Adjuster = (Matrix, CovTable) -> Matrix

  datatype HarmonizeError =
    | SiteColumnMissing
    | BadLevel
    | MissingColumn(col: Datum)
    | NonNumericFeature(col: Datum)
    | NoCovariateList
    | CovariateLabel(col: Datum)
    | ShapeMismatch

  predicate Shaped(m: Matrix, n: nat, w: nat)
  {
    |m| == n && forall i :: 0 <= i < n ==> |m[i]| == w
  }

  // ---------------------------------------------------------------------
  // Sites

  /** The rows of `rows` whose cell under `col` is `v`. */
  function CountOf(rows: seq<Row>, col: Datum, v: Datum): (n: nat)
    ensures n == |FilterRows(rows, r => Cell(r, col) == v)|
  {
    |FilterRows(rows, r => Cell(r, col) == v)|
  }

  /** `check_sites`: `value_counts()` of the site column, a count for every
      non-null site. */
  function CheckSites(df: Frame, siteCol: Datum): (counts: map<Datum, nat>)
    requires siteCol in df.columns
    ensures forall s :: s in counts <==> s != Null && exists r :: r in df.rows && Cell(r, siteCol) == s
    ensures forall s :: s in counts ==> counts[s] >= 1
    ensures forall s :: s in counts ==> counts[s] == CountOf(df.rows, siteCol, s)
  {
    var sites := set r | r in df.rows && Cell(r, siteCol) != Null :: Cell(r, siteCol);
    var counts := map s | s in sites :: CountOf(df.rows, siteCol, s);
    assert forall s :: s in counts ==> counts[s] >= 1 by {
      forall s | s in counts ensures counts[s] >= 1 {
        var r :| r in df.rows && Cell(r, siteCol) == s;
        assert r in FilterRows(df.rows, x => Cell(x, siteCol) == s);
      }
    }
    counts
  }

  /** The sites with exactly one row. */
  function SingletonSites(df: Frame, siteCol: Datum): set<Datum>
    requires siteCol in df.columns
  {
    var counts := CheckSites(df, siteCol);
    set s | s in counts && counts[s] == 1
  }

  /** The rows whose cell under `filterCol` is not a singleton site of
      `siteCol`. */
  function KeepSites(df: Frame, siteCol: Datum, filterCol: Datum): Frame
    requires siteCol in df.columns
  {
    var gone := SingletonSites(df, siteCol);
    Frame(df.columns, FilterRows(df.rows, r => Cell(r, filterCol) !in gone))
  }

  /** A value counted on the site column occurs there at least once. */
  lemma CountedSite(df: Frame, siteCol: Datum, s: Datum)
    requires siteCol in df.columns
    requires s != Null && CountOf(df.rows, siteCol, s) >= 1
    ensures s in CheckSites(df, siteCol)
  {
    var f := FilterRows(df.rows, r => Cell(r, siteCol) == s);
    assert f[0] in f;
  }

  /** A row survives the filter on `filterCol` exactly when that cell is
      null or is not a value occurring exactly once under `siteCol`. */
  lemma KeepSitesKeeps(df: Frame, siteCol: Datum, filterCol: Datum, r: Row)
    requires siteCol in df.columns
    ensures r in KeepSites(df, siteCol, filterCol).rows <==>
            r in df.rows && (Cell(r, filterCol) == Null || CountOf(df.rows, siteCol, Cell(r, filterCol)) != 1)
  {
    var s := Cell(r, filterCol);
    if s != Null && CountOf(df.rows, siteCol, s) == 1 {
      CountedSite(df, siteCol, s);
    }
  }

  /** The site filter as written: the singleton sites are counted on
      `site_col` but looked up in the literal column `'site'`, which raises
      `KeyError` when the table has no such column. */
  function DropSingletonSitesAsWritten(df: Frame, siteCol: Datum): (r: Result<Frame, HarmonizeError>)
    requires siteCol in df.columns
    ensures r.Ok? <==> Text("site") in df.columns
    ensures r.Err? ==> r.error == MissingColumn(Text("site"))
    ensures r.Ok? ==> r.value.columns == df.columns && |r.value.rows| <= |df.rows|
  {
    if Text("site") !in df.columns then Err(MissingColumn(Text("site")))
    else Ok(KeepSites(df, siteCol, Text("site")))
  }

  /** The site filter as intended: keyed on `site_col` throughout. */
  function DropSingletonSites(df: Frame, siteCol: Datum): (out: Frame)
    requires siteCol in df.columns
    ensures out.columns == df.columns && |out.rows| <= |df.rows|
  {
    KeepSites(df, siteCol, siteCol)
  }

  /** A row survives exactly when its site is null or has two or more
      rows; the order of the surviving rows is kept. */
  lemma DropSingletonSitesKeeps(df: Frame, siteCol: Datum, r: Row)
    requires siteCol in df.columns
    ensures r in DropSingletonSites(df, siteCol).rows <==>
            r in df.rows && (Cell(r, siteCol) == Null || CountOf(df.rows, siteCol, Cell(r, siteCol)) >= 2)
  {
    KeepSitesKeeps(df, siteCol, siteCol, r);
    if r in df.rows && Cell(r, siteCol) != Null {
      var counts := CheckSites(df, siteCol);
      assert Cell(r, siteCol) in counts;
    }
  }

  /** A site with a single row loses it; a site with two or more keeps all
      of them. */
  lemma DropSingletonSitesBySite(df: Frame, siteCol: Datum, s: Datum)
    requires siteCol in df.columns
    requires s != Null
    ensures CountOf(df.rows, siteCol, s) == 1 ==>
              forall r :: r in DropSingletonSites(df, siteCol).rows ==> Cell(r, siteCol) != s
    ensures CountOf(df.rows, siteCol, s) >= 2 ==>
              forall r :: r in df.rows && Cell(r, siteCol) == s ==> r in DropSingletonSites(df, siteCol).rows
  {
    forall r | r in df.rows {
      DropSingletonSitesKeeps(df, siteCol, r);
    }
    forall r | r in DropSingletonSites(df, siteCol).rows {
      DropSingletonSitesKeeps(df, siteCol, r);
    }
  }

  /** With the site column named `site`, the filter as written is the
      intended one. */
  lemma DropSingletonSitesAgree(df: Frame)
    requires Text("site") in df.columns
    ensures DropSingletonSitesAsWritten(df, Text("site")) == Ok(DropSingletonSites(df, Text("site")))
  {
  }

  /** The file's own demonstration names its site column `Site_ID` and has
      no `site` column: the filter as written raises where the intended
      one keeps the table. */
  lemma DropSingletonSitesAsWrittenRaises()
    ensures var df := Frame([Text("Site_ID")], [map[Text("Site_ID") := Text("SiteA")]]);
            DropSingletonSitesAsWritten(df, Text("Site_ID")).Err?
            && DropSingletonSites(df, Text("Site_ID")).rows == []
  {
    var df := Frame([Text("Site_ID")], [map[Text("Site_ID") := Text("SiteA")]]);
    var r := df.rows[0];
    assert Cell(r, Text("Site_ID")) == Text("SiteA");
    assert CountOf(df.rows, Text("Site_ID"), Text("SiteA")) == 1 by {
      assert df.rows[..0] == [];
    }
    DropSingletonSitesBySite(df, Text("Site_ID"), Text("SiteA"));
  }

  // ---------------------------------------------------------------------
  // Missing values

  /** A row with no null cell under the table's columns. */
  predicate Complete(r: Row, columns: seq<Datum>)
  {
    forall c :: c in columns ==> Cell(r, c) != Null
  }

  /** `remove_NaN`: `dropna()` when some cell is null, the table itself
      otherwise. */
  function RemoveNaN(df: Frame): (out: Frame)
    ensures out.columns == df.columns
    ensures forall r :: r in out.rows <==> r in df.rows && Complete(r, df.columns)
    ensures (forall r :: r in df.rows ==> Complete(r, df.columns)) ==> out == df
  {
    if exists r :: r in df.rows && !Complete(r, df.columns) then
      Frame(df.columns, FilterRows(df.rows, r => Complete(r, df.columns)))
    else
      FilterRowsAll(df.rows, r => Complete(r, df.columns));
      df
  }

  // ---------------------------------------------------------------------
  // Data matrix, covariate table, write-back

  /** The numeric values of a row under the feature columns. */
  function FeatureValues(r: Row, fs: seq<Datum>): (vs: seq<real>)
    ensures |vs| == |fs| && forall j :: 0 <= j < |fs| ==> vs[j] == NumValue(Cell(r, fs[j]))
  {
    seq(|fs|, j requires 0 <= j < |fs| => NumValue(Cell(r, fs[j])))
  }

  /** `mean(axis=1)` over the feature columns (0 when there are none). */
  function RowMean(r: Row, fs: seq<Datum>): real
  {
    if fs == [] then 0.0 else Mean(FeatureValues(r, fs))
  }

  /** The data matrix at region level: one column per feature. */
  function RegionData(rows: seq<Row>, fs: seq<Datum>): (m: Matrix)
    ensures Shaped(m, |rows|, |fs|)
    ensures forall i, j :: 0 <= i < |rows| && 0 <= j < |fs| ==> m[i][j] == NumValue(Cell(rows[i], fs[j]))
  {
    seq(|rows|, i requires 0 <= i < |rows| => FeatureValues(rows[i], fs))
  }

  /** The data matrix at global level: one column, each row's mean. */
  function GlobalData(rows: seq<Row>, fs: seq<Datum>): (m: Matrix)
    ensures Shaped(m, |rows|, 1)
    ensures forall i :: 0 <= i < |rows| ==> m[i][0] == RowMean(rows[i], fs)
  {
    seq(|rows|, i requires 0 <= i < |rows| => [RowMean(rows[i], fs)])
  }

  /** `rename(columns={site_col: 'SITE'})` on a list of labels. */
  function RenameSite(cols: seq<Datum>, siteCol: Datum): (out: seq<Datum>)
    ensures |out| == |cols|
    ensures forall k :: 0 <= k < |cols| ==> out[k] == (if cols[k] == siteCol then Text("SITE") else cols[k])
  {
    seq(|cols|, k requires 0 <= k < |cols| => if cols[k] == siteCol then Text("SITE") else cols[k])
  }

  /** `df_final[[site_col] + covariate_cols]` with the site column renamed. */
  function Covariates(rows: seq<Row>, siteCol: Datum, covs: seq<Datum>): (t: CovTable)
    ensures t.columns == RenameSite([siteCol] + covs, siteCol) && t.columns[0] == Text("SITE")
    ensures |t.values| == |rows|
    ensures forall i :: 0 <= i < |rows| ==> t.values[i] == KeyOf(rows[i], [siteCol] + covs)
  {
    CovTable(RenameSite([siteCol] + covs, siteCol),
             seq(|rows|, i requires 0 <= i < |rows| => KeyOf(rows[i], [siteCol] + covs)))
  }

  /** `x * (h / (m + eps))`; a zero denominator gives numpy's infinity or
      NaN, a non-finite cell. */
  function Scaled(x: Datum, h: real, m: real): Datum
  {
    if m + Eps == 0.0 then Null else Real(NumValue(x) * (h / (m + Eps)))
  }

  /** A row with the cells under `fs` replaced by `vs`, in order. */
  function SetCells(r: Row, fs: seq<Datum>, vs: seq<Datum>): (out: Row)
    requires |fs| == |vs|
    ensures forall c :: c !in fs ==> Cell(out, c) == Cell(r, c)
    ensures Distinct(fs) ==> forall j :: 0 <= j < |fs| ==> Cell(out, fs[j]) == vs[j]
  {
    if fs == [] then r
    else
      var n := |fs| - 1;
      assert forall c :: c in fs[..n] ==> c in fs;
      assert Distinct(fs) ==> Distinct(fs[..n]) && fs[n] !in fs[..n];
      SetCells(r, fs[..n], vs[..n])[fs[n] := vs[n]]
  }

  /** The table after the region-level write-back: feature cell (i, j) is
      the adjuster's (i, j). */
  function WriteRegion(rows: seq<Row>, fs: seq<Datum>, h: Matrix): seq<Row>
    requires Shaped(h, |rows|, |fs|)
  {
    seq(|rows|, i requires 0 <= i < |rows| =>
      SetCells(rows[i], fs, seq(|fs|, j requires 0 <= j < |fs| => Real(h[i][j]))))
  }

  /** The table after the global write-back: every feature of row i is
      multiplied by the same factor `h_i / (m_i + eps)`. */
  function WriteGlobal(rows: seq<Row>, fs: seq<Datum>, h: Matrix): seq<Row>
    requires Shaped(h, |rows|, 1)
  {
    seq(|rows|, i requires 0 <= i < |rows| =>
      SetCells(rows[i], fs, seq(|fs|, j requires 0 <= j < |fs| => Scaled(Cell(rows[i], fs[j]), h[i][0], RowMean(rows[i], fs)))))
  }

  // ---------------------------------------------------------------------
  // The orchestrator

  /** The table the adjuster sees: the rows whose cell under `filterCol`
      is not a single-row site of `siteCol`, then the complete rows among
      them. The program filters on the literal column `site`; the intended
      filter uses `siteCol`. */
  function Prepared(df: Frame, siteCol: Datum, filterCol: Datum): (final: Frame)
    requires siteCol in df.columns
    ensures final.columns == df.columns && |final.rows| <= |df.rows|
  {
    RemoveNaN(KeepSites(df, siteCol, filterCol))
  }

  /** The first feature with a text cell in a retained row. */
  function FirstTextFeature(rows: seq<Row>, fs: seq<Datum>): (r: Option<Datum>)
    ensures r.None? <==> forall j, x :: 0 <= j < |fs| && x in rows ==> !Cell(x, fs[j]).Text?
    ensures r.Some? ==> r.value in fs && exists x :: x in rows && Cell(x, r.value).Text?
  {
    if fs == [] then None
    else if exists x :: x in rows && Cell(x, fs[0]).Text? then Some(fs[0])
    else
      assert forall j :: 0 <= j < |fs| - 1 ==> fs[1..][j] == fs[j + 1];
      FirstTextFeature(rows, fs[1..])
  }

  /** `[site_col] + (covariate_cols if covariate_cols else [])`, without
      the site column. */
  function CovList(covs: Option<seq<Datum>>): seq<Datum>
  {
    if covs.Some? then covs.value else []
  }

  /** The argument checks that open `harmonize_dataset`, in order: the site
      column, the level, then every feature and covariate column. */
  function CheckArguments(df: Frame, fs: seq<Datum>, siteCol: Datum, covs: Option<seq<Datum>>, level: string): (e: Option<HarmonizeError>)
    ensures e.None? <==> siteCol in df.columns && (level == "global" || level == "region")
                         && forall c :: c in fs + [siteCol] + CovList(covs) ==> c in df.columns
    ensures e.Some? && siteCol !in df.columns ==> e.value == SiteColumnMissing
  {
    if siteCol !in df.columns then Some(SiteColumnMissing)
    else if level != "global" && level != "region" then Some(BadLevel)
    else match FirstMissing(fs + [siteCol] + CovList(covs), df.columns)
      case Some(c) => Some(MissingColumn(c))
      case None => None
  }

  /** `harmonize_dataset(df_wide, feature_cols, site_col, covariate_cols,
      harmonization_level)` with the estimator `adjust`, as written: the
      single-row sites of `site_col` are removed by looking them up in the
      column `site`. */
  function HarmonizeDataset(df: Frame, fs: seq<Datum>, siteCol: Datum, covs: Option<seq<Datum>>, level: string, adjust: Adjuster): (r: Result<Frame, HarmonizeError>)
    ensures r.Ok? ==> Text("site") in df.columns && siteCol in df.columns && covs.Some?
    ensures r.Ok? ==> siteCol !in covs.value && Text("SITE") !in covs.value && Distinct(covs.value)
    ensures r.Ok? ==> r.value.columns == df.columns && |r.value.rows| <= |df.rows|
  {
    match CheckArguments(df, fs, siteCol, covs, level)
    case Some(e) => Err(e)
    case None =>
      match DropSingletonSitesAsWritten(df, siteCol)
      case Err(e) => Err(e)
      case Ok(kept) => Harmonized(RemoveNaN(kept), fs, siteCol, covs, level, adjust)
  }

  /** `harmonize_dataset` as intended: the single-row sites are removed on
      `site_col` itself. */
  function HarmonizeDatasetIntended(df: Frame, fs: seq<Datum>, siteCol: Datum, covs: Option<seq<Datum>>, level: string, adjust: Adjuster): (r: Result<Frame, HarmonizeError>)
    ensures r.Ok? ==> siteCol in df.columns && covs.Some?
    ensures r.Ok? ==> siteCol !in covs.value && Text("SITE") !in covs.value && Distinct(covs.value)
    ensures r.Ok? ==> r.value.columns == df.columns && |r.value.rows| <= |df.rows|
  {
    match CheckArguments(df, fs, siteCol, covs, level)
    case Some(e) => Err(e)
    case None => Harmonized(Prepared(df, siteCol, siteCol), fs, siteCol, covs, level, adjust)
  }

  /** Everything after the site and missing-value filters. At global
      level a text feature makes `mean(axis=1)` raise first. Picking the
      dummy columns comes next: iterating a `None` covariate list raises,
      and so does reading the dtype of a covariate whose label the renamed
      table holds other than exactly once (`KeyError` for `site_col`,
      renamed away; `AttributeError` for a repeated label, a DataFrame).
      At region level a text feature then reaches the estimator, which
      raises. */
  function Harmonized(final: Frame, fs: seq<Datum>, siteCol: Datum, covs: Option<seq<Datum>>, level: string, adjust: Adjuster): (r: Result<Frame, HarmonizeError>)
    ensures r.Ok? ==> covs.Some? && siteCol !in covs.value && Text("SITE") !in covs.value && Distinct(covs.value)
    ensures r.Ok? ==> r.value.columns == final.columns && |r.value.rows| == |final.rows|
    ensures r.Ok? ==> forall i, c :: 0 <= i < |final.rows| && c !in fs ==> Cell(r.value.rows[i], c) == Cell(final.rows[i], c)
  {
    var text := FirstTextFeature(final.rows, fs);
    if level == "global" && text.Some? then Err(NonNumericFeature(text.value))
    else if covs.None? then Err(NoCovariateList)
    else
      var clash := FirstClash(RenameSite([siteCol] + covs.value, siteCol), covs.value);
      if clash.Some? then Err(CovariateLabel(clash.value))
      else if text.Some? then Err(NonNumericFeature(text.value))
      else
        CovariateLabelsUnique(siteCol, covs.value);
        Adjust(final, fs, siteCol, covs.value, level, adjust)
  }

  /** The first covariate that the labels hold other than exactly once:
      `covariates_df[col].dtype` in the comprehension of line 118 raises on
      it, and on no earlier covariate. */
  function FirstClash(labels: seq<Datum>, covs: seq<Datum>): (r: Option<Datum>)
    ensures r.None? <==> forall k :: 0 <= k < |covs| ==> multiset(labels)[covs[k]] == 1
    ensures r.Some? ==> exists k :: 0 <= k < |covs| && covs[k] == r.value && multiset(labels)[r.value] != 1
                                    && forall j :: 0 <= j < k ==> multiset(labels)[covs[j]] == 1
  {
    if covs == [] then None
    else if multiset(labels)[covs[0]] != 1 then Some(covs[0])
    else
      var rest := covs[1..];
      assert forall k :: 0 <= k < |rest| ==> rest[k] == covs[k + 1];
      var r := FirstClash(labels, rest);
      assert r.Some? ==> exists k :: 1 <= k < |covs| && covs[k] == r.value && multiset(labels)[r.value] != 1
                                    && forall j :: 0 <= j < k ==> multiset(labels)[covs[j]] == 1 by {
        if r.Some? {
          var k :| 0 <= k < |rest| && rest[k] == r.value && multiset(labels)[r.value] != 1
                   && forall j :: 0 <= j < k ==> multiset(labels)[rest[j]] == 1;
          assert forall j :: 1 <= j < k + 1 ==> covs[j] == rest[j - 1];
        }
      }
      r
  }

  /** How often a label occurs after `rename(columns={site_col: 'SITE'})`:
      the site column's label is gone, and `SITE` also counts the renamed
      ones. */
  lemma {:induction false} RenameCount(cols: seq<Datum>, siteCol: Datum, c: Datum)
    ensures multiset(RenameSite(cols, siteCol))[c] ==
            if c == siteCol && c != Text("SITE") then 0
            else if c == Text("SITE") && siteCol != Text("SITE") then multiset(cols)[c] + multiset(cols)[siteCol]
            else multiset(cols)[c]
  {
    if cols != [] {
      var n := |cols| - 1;
      RenameCount(cols[..n], siteCol, c);
      assert RenameSite(cols, siteCol) == RenameSite(cols[..n], siteCol) + [RenameSite(cols, siteCol)[n]];
      assert cols == cols[..n] + [cols[n]];
    }
  }

  /** A sequence has no repeats exactly when each of its elements occurs
      once. */
  lemma {:induction false} DistinctCounts<T>(s: seq<T>)
    ensures Distinct(s) <==> forall k :: 0 <= k < |s| ==> multiset(s)[s[k]] == 1
  {
    if s != [] {
      var n := |s| - 1;
      var p := s[..n];
      DistinctCounts(p);
      assert s == p + [s[n]];
      if Distinct(s) {
        assert Distinct(p);
        assert s[n] !in p;
        forall k | 0 <= k < |s| ensures multiset(s)[s[k]] == 1 {
          if k < n {
            assert p[k] == s[k];
          }
        }
      }
      if forall k :: 0 <= k < |s| ==> multiset(s)[s[k]] == 1 {
        assert multiset(p)[s[n]] == 0;
        forall k | 0 <= k < n ensures multiset(p)[p[k]] == 1 {
          assert p[k] == s[k] && p[k] in p;
        }
        forall i, j | 0 <= i < j < |s| ensures s[i] != s[j] {
          if j == n {
            assert s[i] in p;
          } else {
            assert p[i] == s[i] && p[j] == s[j];
          }
        }
      }
    }
  }

  /** Line 118 reads every covariate's dtype without error exactly when no
      covariate is the site column, none is named `SITE`, and none
      repeats. */
  lemma CovariateLabelsUnique(siteCol: Datum, covs: seq<Datum>)
    ensures (forall k :: 0 <= k < |covs| ==> multiset(RenameSite([siteCol] + covs, siteCol))[covs[k]] == 1)
            <==> siteCol !in covs && Text("SITE") !in covs && Distinct(covs)
  {
    var cols := [siteCol] + covs;
    var labels := RenameSite(cols, siteCol);
    assert multiset(cols) == multiset{siteCol} + multiset(covs);
    DistinctCounts(covs);
    if forall k :: 0 <= k < |covs| ==> multiset(labels)[covs[k]] == 1 {
      forall k | 0 <= k < |covs| ensures covs[k] != siteCol && covs[k] != Text("SITE") {
        RenameCount(cols, siteCol, covs[k]);
        assert covs[k] in multiset(covs);
      }
      forall k | 0 <= k < |covs| ensures multiset(covs)[covs[k]] == 1 {
        RenameCount(cols, siteCol, covs[k]);
      }
    }
    if siteCol !in covs && Text("SITE") !in covs && Distinct(covs) {
      forall k | 0 <= k < |covs| ensures multiset(labels)[covs[k]] == 1 {
        RenameCount(cols, siteCol, covs[k]);
      }
    }
  }

  /** Steps 2 and 3: run the adjuster and write its output back. */
  function Adjust(final: Frame, fs: seq<Datum>, siteCol: Datum, covs: seq<Datum>, level: string, adjust: Adjuster): (r: Result<Frame, HarmonizeError>)
    ensures r.Ok? ==> r.value.columns == final.columns && |r.value.rows| == |final.rows|
    ensures r.Ok? ==> forall i, c :: 0 <= i < |final.rows| && c !in fs ==> Cell(r.value.rows[i], c) == Cell(final.rows[i], c)
  {
    var cov := Covariates(final.rows, siteCol, covs);
    if level == "region" then
      var h := adjust(RegionData(final.rows, fs), cov);
      if !Shaped(h, |final.rows|, |fs|) then Err(ShapeMismatch)
      else Ok(Frame(final.columns, WriteRegion(final.rows, fs, h)))
    else
      var h := adjust(GlobalData(final.rows, fs), cov);
      if !Shaped(h, |final.rows|, 1) then Err(ShapeMismatch)
      else Ok(Frame(final.columns, WriteGlobal(final.rows, fs, h)))
  }

  // ---------------------------------------------------------------------
  // Properties

  /** A row reaches the adjuster exactly when it comes from the input, has
      no null cell, and its cell under `filterCol` is null or not a value
      occurring exactly once under `siteCol`. With `filterCol` the literal
      `site` this is the program; with `siteCol` the intended filter. */
  lemma PreparedRows(df: Frame, siteCol: Datum, filterCol: Datum, r: Row)
    requires siteCol in df.columns
    ensures r in Prepared(df, siteCol, filterCol).rows <==>
            r in df.rows && Complete(r, df.columns)
            && (Cell(r, filterCol) == Null || CountOf(df.rows, siteCol, Cell(r, filterCol)) != 1)
  {
    KeepSitesKeeps(df, siteCol, filterCol, r);
  }

  /** The call succeeds exactly when the site column and level are valid,
      every named column exists, the table has a `site` column, a
      covariate list is given whose labels are distinct and neither the
      site column nor `SITE`, the retained feature cells are numbers and
      the adjuster returns the shape it was given. */
  lemma HarmonizeOk(df: Frame, fs: seq<Datum>, siteCol: Datum, covs: Option<seq<Datum>>, level: string, adjust: Adjuster)
    ensures HarmonizeDataset(df, fs, siteCol, covs, level, adjust).Ok? <==>
            && (level == "global" || level == "region")
            && siteCol in df.columns
            && (forall c :: c in fs + [siteCol] + CovList(covs) ==> c in df.columns)
            && Text("site") in df.columns
            && covs.Some? && siteCol !in covs.value && Text("SITE") !in covs.value && Distinct(covs.value)
            && var final := Prepared(df, siteCol, Text("site"));
               && (forall j, x :: 0 <= j < |fs| && x in final.rows ==> !Cell(x, fs[j]).Text?)
               && var cov := Covariates(final.rows, siteCol, covs.value);
                  if level == "region" then Shaped(adjust(RegionData(final.rows, fs), cov), |final.rows|, |fs|)
                  else Shaped(adjust(GlobalData(final.rows, fs), cov), |final.rows|, 1)
  {
    assert siteCol in fs + [siteCol] + CovList(covs);
    if CheckArguments(df, fs, siteCol, covs, level).None? && Text("site") in df.columns {
      var final := Prepared(df, siteCol, Text("site"));
      HarmonizedOk(final, fs, siteCol, covs, level, adjust);
      assert HarmonizeDataset(df, fs, siteCol, covs, level, adjust) == Harmonized(final, fs, siteCol, covs, level, adjust);
    }
  }

  /** After the filters, at a valid level, the rest succeeds exactly when
      a covariate list is given whose labels are distinct and neither the
      site column nor `SITE`, the feature cells are numbers, and the
      adjuster returns the shape it was given. */
  lemma HarmonizedOk(final: Frame, fs: seq<Datum>, siteCol: Datum, covs: Option<seq<Datum>>, level: string, adjust: Adjuster)
    requires level == "global" || level == "region"
    ensures Harmonized(final, fs, siteCol, covs, level, adjust).Ok? <==>
            && covs.Some? && siteCol !in covs.value && Text("SITE") !in covs.value && Distinct(covs.value)
            && (forall j, x :: 0 <= j < |fs| && x in final.rows ==> !Cell(x, fs[j]).Text?)
            && var cov := Covariates(final.rows, siteCol, covs.value);
               if level == "region" then Shaped(adjust(RegionData(final.rows, fs), cov), |final.rows|, |fs|)
               else Shaped(adjust(GlobalData(final.rows, fs), cov), |final.rows|, 1)
  {
    if covs.Some? {
      CovariateLabelsUnique(siteCol, covs.value);
    }
  }

  /** Region level: the output keeps the retained rows in order, each
      feature cell is the adjuster's value at the same position, and every
      other column is unchanged. */
  lemma RegionResult(df: Frame, fs: seq<Datum>, siteCol: Datum, covs: Option<seq<Datum>>, adjust: Adjuster, out: Frame)
    requires Distinct(fs)
    requires HarmonizeDataset(df, fs, siteCol, covs, "region", adjust) == Ok(out)
    ensures var final := Prepared(df, siteCol, Text("site"));
            var h := adjust(RegionData(final.rows, fs), Covariates(final.rows, siteCol, CovList(covs)));
            && Shaped(h, |final.rows|, |fs|)
            && out.columns == df.columns && |out.rows| == |final.rows|
            && (forall i, j :: 0 <= i < |out.rows| && 0 <= j < |fs| ==> Cell(out.rows[i], fs[j]) == Real(h[i][j]))
            && (forall i, c :: 0 <= i < |out.rows| && c !in fs ==> Cell(out.rows[i], c) == Cell(final.rows[i], c))
  {
    var final := Prepared(df, siteCol, Text("site"));
    assert Harmonized(final, fs, siteCol, covs, "region", adjust) == Ok(out);
    assert Adjust(final, fs, siteCol, covs.value, "region", adjust) == Ok(out);
  }

  /** Global level: the output keeps the retained rows in order, every
      feature of row i is scaled by `h_i / (m_i + eps)` where `m_i` is the
      row's feature mean and `h_i` the adjuster's value for it, and every
      other column is unchanged. */
  lemma GlobalResult(df: Frame, fs: seq<Datum>, siteCol: Datum, covs: Option<seq<Datum>>, adjust: Adjuster, out: Frame)
    requires Distinct(fs)
    requires HarmonizeDataset(df, fs, siteCol, covs, "global", adjust) == Ok(out)
    ensures var final := Prepared(df, siteCol, Text("site"));
            var h := adjust(GlobalData(final.rows, fs), Covariates(final.rows, siteCol, CovList(covs)));
            && Shaped(h, |final.rows|, 1)
            && out.columns == df.columns && |out.rows| == |final.rows|
            && (forall i, j :: 0 <= i < |out.rows| && 0 <= j < |fs| ==>
                  Cell(out.rows[i], fs[j]) == Scaled(Cell(final.rows[i], fs[j]), h[i][0], RowMean(final.rows[i], fs)))
            && (forall i, c :: 0 <= i < |out.rows| && c !in fs ==> Cell(out.rows[i], c) == Cell(final.rows[i], c))
  {
    var final := Prepared(df, siteCol, Text("site"));
    assert Harmonized(final, fs, siteCol, covs, "global", adjust) == Ok(out);
    assert Adjust(final, fs, siteCol, covs.value, "global", adjust) == Ok(out);
  }

  /** One factor per row: two features of a row keep their ratio, stated
      without division as equal cross products. */
  lemma ScaledKeepsRatio(x: Datum, y: Datum, h: real, m: real)
    requires m + Eps != 0.0
    ensures NumValue(Scaled(x, h, m)) * NumValue(y) == NumValue(Scaled(y, h, m)) * NumValue(x)
  {
    var k := h / (m + Eps);
    assert NumValue(Scaled(x, h, m)) == NumValue(x) * k;
    assert NumValue(Scaled(y, h, m)) == NumValue(y) * k;
    CrossProduct(NumValue(x), NumValue(y), k);
  }

  lemma CrossProduct(a: real, b: real, k: real)
    ensures (a * k) * b == (b * k) * a
  {
  }

  /** With an adjuster that changes nothing, the global factor of row i is
      `m_i / (m_i + eps)`. */
  lemma GlobalIdentity(df: Frame, fs: seq<Datum>, siteCol: Datum, covs: Option<seq<Datum>>, out: Frame)
    requires Distinct(fs)
    requires HarmonizeDataset(df, fs, siteCol, covs, "global", (m, c) => m) == Ok(out)
    ensures var final := Prepared(df, siteCol, Text("site"));
            forall i, j :: 0 <= i < |out.rows| && 0 <= j < |fs| ==>
              Cell(out.rows[i], fs[j]) == Scaled(Cell(final.rows[i], fs[j]), RowMean(final.rows[i], fs), RowMean(final.rows[i], fs))
  {
    GlobalResult(df, fs, siteCol, covs, (m, c) => m, out);
    var final := Prepared(df, siteCol, Text("site"));
    var g := GlobalData(final.rows, fs);
    assert forall i :: 0 <= i < |final.rows| ==> g[i][0] == RowMean(final.rows[i], fs);
  }

  /** With the site column named `site`, the program and the intended
      pipeline agree. */
  lemma HarmonizeAgree(df: Frame, fs: seq<Datum>, covs: Option<seq<Datum>>, level: string, adjust: Adjuster)
    ensures HarmonizeDataset(df, fs, Text("site"), covs, level, adjust) == HarmonizeDatasetIntended(df, fs, Text("site"), covs, level, adjust)
  {
  }

  /** The intended pipeline never passes on a row of a single-row site:
      every output row has a site, and that site has at least two rows in
      the input. */
  lemma IntendedKeepsNoSingleton(df: Frame, fs: seq<Datum>, siteCol: Datum, covs: Option<seq<Datum>>, level: string, adjust: Adjuster, out: Frame)
    requires siteCol !in fs
    requires HarmonizeDatasetIntended(df, fs, siteCol, covs, level, adjust) == Ok(out)
    ensures forall r :: r in out.rows ==> Cell(r, siteCol) != Null && CountOf(df.rows, siteCol, Cell(r, siteCol)) >= 2
  {
    var final := Prepared(df, siteCol, siteCol);
    forall r | r in out.rows ensures Cell(r, siteCol) != Null && CountOf(df.rows, siteCol, Cell(r, siteCol)) >= 2 {
      var i :| 0 <= i < |out.rows| && out.rows[i] == r;
      var x := final.rows[i];
      assert Cell(r, siteCol) == Cell(x, siteCol);
      assert x in final.rows;
      PreparedRows(df, siteCol, siteCol, x);
      DropSingletonSitesKeeps(df, siteCol, x);
      KeepSitesKeeps(df, siteCol, siteCol, x);
    }
  }

  /** The program's own demonstration names its site column `Site_ID` and
      has no `site` column: on two complete rows of one site the program
      raises `KeyError('site')`, where the intended pipeline harmonises. */
  lemma HarmonizeAsWrittenRaises()
    ensures var df := Frame([Text("Site_ID"), Text("R001")],
                            [map[Text("Site_ID") := Text("SiteA"), Text("R001") := Real(1.0)],
                             map[Text("Site_ID") := Text("SiteA"), Text("R001") := Real(2.0)]]);
            var identity: Adjuster := (m, c) => m;
            && HarmonizeDataset(df, [Text("R001")], Text("Site_ID"), Some([]), "region", identity) == Err(MissingColumn(Text("site")))
            && HarmonizeDatasetIntended(df, [Text("R001")], Text("Site_ID"), Some([]), "region", identity).Ok?
  {
    var df := Frame([Text("Site_ID"), Text("R001")],
                    [map[Text("Site_ID") := Text("SiteA"), Text("R001") := Real(1.0)],
                     map[Text("Site_ID") := Text("SiteA"), Text("R001") := Real(2.0)]]);
    var identity: Adjuster := (m, c) => m;
    var fs := [Text("R001")];
    var site := Text("Site_ID");
    assert Text("site") !in df.columns;
    assert CheckArguments(df, fs, site, Some([]), "region").None?;
    var final := Prepared(df, site, site);
    assert FirstTextFeature(final.rows, fs).None? by {
      forall x | x in final.rows ensures !Cell(x, fs[0]).Text? {
        PreparedRows(df, site, site, x);
      }
    }
    assert FirstClash(RenameSite([site] + [], site), []).None?;
    assert Shaped(identity(RegionData(final.rows, fs), Covariates(final.rows, site, [])), |final.rows|, |fs|);
    assert Harmonized(final, fs, site, Some([]), "region", identity) == Adjust(final, fs, site, [], "region", identity);
  }

  /** Once the retained features pass the global-level mean, naming the
      site column as a covariate makes line 118 raise: its label was
      renamed to `SITE` (`KeyError`), or, when it is `SITE` already, now
      selects two columns (`AttributeError`). */
  lemma SiteCovariateRaises(final: Frame, fs: seq<Datum>, siteCol: Datum, level: string, adjust: Adjuster)
    requires level != "global" || FirstTextFeature(final.rows, fs).None?
    ensures Harmonized(final, fs, siteCol, Some([siteCol]), level, adjust) == Err(CovariateLabel(siteCol))
  {
    RenameCount([siteCol] + [siteCol], siteCol, siteCol);
  }

  /** A covariate named twice selects a DataFrame, whose missing `dtype`
      makes line 118 raise `AttributeError`. */
  lemma RepeatedCovariateRaises(final: Frame, fs: seq<Datum>, siteCol: Datum, c: Datum, level: string, adjust: Adjuster)
    requires c != siteCol
    requires level != "global" || FirstTextFeature(final.rows, fs).None?
    ensures Harmonized(final, fs, siteCol, Some([c, c]), level, adjust) == Err(CovariateLabel(c))
  {
    RenameCount([siteCol] + [c, c], siteCol, c);
    assert multiset([siteCol] + [c, c])[c] >= 2;
  }

  /** The covariate table lines up with the retained rows: row i holds
      row i's site and covariates, and the site column is relabelled
      `SITE`. */
  lemma CovariatesAligned(rows: seq<Row>, siteCol: Datum, covs: seq<Datum>)
    ensures var cov := Covariates(rows, siteCol, covs);
            && (forall k :: 0 <= k < |covs| ==> cov.columns[k + 1] == (if covs[k] == siteCol then Text("SITE") else covs[k]))
            && (forall i :: 0 <= i < |rows| ==> cov.values[i][0] == Cell(rows[i], siteCol))
            && (forall i, k :: 0 <= i < |rows| && 0 <= k < |covs| ==> cov.values[i][k + 1] == Cell(rows[i], covs[k]))
  {
    var cov := Covariates(rows, siteCol, covs);
    var cols := [siteCol] + covs;
    forall k | 0 <= k < |covs| ensures cov.columns[k + 1] == (if covs[k] == siteCol then Text("SITE") else covs[k]) {
      assert cols[k + 1] == covs[k];
    }
    forall i | 0 <= i < |rows|
      ensures cov.values[i][0] == Cell(rows[i], siteCol)
      ensures forall k :: 0 <= k < |covs| ==> cov.values[i][k + 1] == Cell(rows[i], covs[k])
    {
      KeyOfAppend(rows[i], [siteCol], covs);
      assert cov.values[i] == KeyOf(rows[i], [siteCol]) + KeyOf(rows[i], covs);
    }
  }

  /** A row whose features all hold the same value has that value as its
      global signal. */
  lemma RowMeanOfConstant(r: Row, fs: seq<Datum>, x: real)
    requires fs != [] && forall j :: 0 <= j < |fs| ==> NumValue(Cell(r, fs[j])) == x
    ensures RowMean(r, fs) == x
  {
    MeanOfConstant(FeatureValues(r, fs), x);
  }
}
