/** The pre-harmonisation validator `sanity_check_long_df`: an ordered
    cascade of checks over a long table, each of which either raises or
    lets the next one run. The model returns the first failing check as
    an error, or `Ok(true)` when all pass. */
module SanityCheck {
  import opened Frames

  /** The keyword arguments of the validator. `regionCol` is None when
      `region_col` is not given; `metadata` is `[]` for `metadata=None`. */
  datatype CheckArgs = CheckArgs(
    idCol: Datum, siteCol: Datum, parcelCol: Datum, valueCol: Datum, observableCol: Datum,
    obsName: string, regionCol: Option<Datum>, metadata: seq<Datum>,
    level: string, minSubjectsPerSite: int)

  /** The defaults of the keyword arguments that have one. */
  function DefaultArgs(idCol: Datum, siteCol: Datum, obsName: string): (a: CheckArgs)
    ensures a.parcelCol == Text("parcel") && a.valueCol == Text("value") && a.observableCol == Text("observable")
    ensures a.regionCol.None? && a.metadata == [] && a.level == "parcel" && a.minSubjectsPerSite == 2
  {
    CheckArgs(idCol, siteCol, Text("parcel"), Text("value"), Text("observable"), obsName, None, [], "parcel", 2)
  }

  /** The `ValueError`s the checks raise, in the order they are tried, and
      the `KeyError` that `duplicated` raises on a subset column the table
      lacks; `TypeError` is `np.isfinite` on a value column of object
      dtype. Filtering keeps the dtype of the whole column, so one text
      cell anywhere in the table, in any observable's rows, gives it. */
  datatype CheckError =
    | RegionColumnRequired
    | MissingColumns(missing: set<Datum>)
    | ObservableNotFound
    | NoRowsForObservable
    | SubsetColumnMissing
    | DuplicatedRows(count: nat)
    | MultipleSites
    | SmallSites(sites: set<Datum>)
    | ValueNotNumeric
    | NonFiniteValues
    | InconsistentParcels
    | InconsistentRegions
    | ZeroVariance(parcels: set<Datum>)
    | MetadataHasNull(col: Datum)

  /** The columns that must exist. */
  function Required(a: CheckArgs): set<Datum>
  {
    {a.idCol, a.siteCol, a.parcelCol, a.valueCol, a.observableCol}
    + (if a.level == "region" && a.regionCol.Some? then {a.regionCol.value} else {})
    + (set k | 0 <= k < |a.metadata| :: a.metadata[k])
  }

  /** The required columns the table lacks. */
  function Missing(df: Frame, a: CheckArgs): set<Datum>
  {
    Required(a) - (set c | c in df.columns)
  }

  /** The rows of the observable being checked. */
  function Observed(df: Frame, a: CheckArgs): seq<Row>
  {
    FilterRows(df.rows, r => Cell(r, a.observableCol) == Text(a.obsName))
  }

  /** The columns `duplicated` compares, or None when the region column is
      needed and not given. */
  function DupSubset(a: CheckArgs): Option<seq<Datum>>
  {
    if a.level == "global" || a.level == "parcel" then Some([a.idCol, a.parcelCol, a.observableCol])
    else if a.regionCol.None? then None
    else Some([a.idCol, a.siteCol, a.parcelCol, a.regionCol.value])
  }

  /** The key of each row under the subset columns. */
  function SubsetKeys(rows: seq<Row>, subset: seq<Datum>): (ks: seq<seq<Datum>>)
    ensures |ks| == |rows|
  {
    seq(|rows|, i requires 0 <= i < |rows| => KeyOf(rows[i], subset))
  }

  /** `duplicated(...).sum()`: the rows whose key an earlier row has. */
  function DuplicateCount<T(==)>(keys: seq<T>): nat
  {
    if keys == [] then 0
    else DuplicateCount(keys[..|keys| - 1]) + (if keys[|keys| - 1] in keys[..|keys| - 1] then 1 else 0)
  }

  /** The non-null cells under `col`: the groups of a `groupby(col)`. */
  function Groups(rows: seq<Row>, col: Datum): set<Datum>
  {
    set r | r in rows && Cell(r, col) != Null :: Cell(r, col)
  }

  /** The distinct non-null cells under `col` in group `key` of
      `groupby(keyCol)`: what `nunique` counts. */
  function Distincts(rows: seq<Row>, keyCol: Datum, key: Datum, col: Datum): set<Datum>
  {
    set r | r in rows && Cell(r, keyCol) == key && Cell(r, col) != Null :: Cell(r, col)
  }

  /** The values `groupby(keyCol)[col].nunique()` takes. */
  function CountSet(rows: seq<Row>, keyCol: Datum, col: Datum): set<nat>
  {
    set k | k in Groups(rows, keyCol) :: |Distincts(rows, keyCol, k, col)|
  }

  /** The sites with at least one and fewer than `min` subjects. */
  function SmallSiteSet(rows: seq<Row>, a: CheckArgs): set<Datum>
  {
    set s | s in Groups(rows, a.siteCol) && 1 <= |Distincts(rows, a.siteCol, s, a.idCol)| < a.minSubjectsPerSite
  }

  /** The values of parcel p, in row order. */
  function ParcelValues(rows: seq<Row>, parcelCol: Datum, p: Datum, valueCol: Datum): (vs: seq<real>)
    ensures forall x :: x in vs <==> exists r :: r in rows && Cell(r, parcelCol) == p && NumValue(Cell(r, valueCol)) == x
  {
    if rows == [] then []
    else
      var n := |rows| - 1;
      assert rows == rows[..n] + [rows[n]];
      ParcelValues(rows[..n], parcelCol, p, valueCol) + (if Cell(rows[n], parcelCol) == p then [NumValue(Cell(rows[n], valueCol))] else [])
  }

  /** `var()` of a parcel's values, with NaN filled by 0, is zero. Over
      exact reals the sample variance is zero exactly when all values are
      equal, and a single value gives NaN, which is filled with 0; so the
      parcel fails when no two of its values differ. */
  predicate AllEqual(xs: seq<real>)
  {
    forall i, j :: 0 <= i < |xs| && 0 <= j < |xs| ==> xs[i] == xs[j]
  }

  /** The parcels whose variance is zero. */
  function ZeroVarianceSet(rows: seq<Row>, a: CheckArgs): set<Datum>
  {
    set p | p in Groups(rows, a.parcelCol) && AllEqual(ParcelValues(rows, a.parcelCol, p, a.valueCol))
  }

  /** The first metadata column with a null cell. */
  function FirstNullColumn(rows: seq<Row>, metadata: seq<Datum>): (r: Option<Datum>)
    ensures r.None? <==> forall k, x :: 0 <= k < |metadata| && x in rows ==> Cell(x, metadata[k]) != Null
    ensures r.Some? ==> exists k :: 0 <= k < |metadata| && metadata[k] == r.value
                                    && (exists x :: x in rows && Cell(x, r.value) == Null)
                                    && forall j, x :: 0 <= j < k && x in rows ==> Cell(x, metadata[j]) != Null
  {
    if metadata == [] then None
    else if exists x :: x in rows && Cell(x, metadata[0]) == Null then Some(metadata[0])
    else
      assert forall j :: 0 <= j < |metadata| - 1 ==> metadata[1..][j] == metadata[j + 1];
      FirstNullColumn(rows, metadata[1..])
  }

  /** `sanity_check_long_df(df, ...)`. */
  function SanityCheckLongDf(df: Frame, a: CheckArgs): (r: Result<bool, CheckError>)
    ensures r.Ok? ==> r.value
    ensures a.level == "region" && a.regionCol.None? ==> r == Err(RegionColumnRequired)
    ensures !(a.level == "region" && a.regionCol.None?) && Missing(df, a) != {} ==> r == Err(MissingColumns(Missing(df, a)))
  {
    if a.level == "region" && a.regionCol.None? then Err(RegionColumnRequired)
    else if Missing(df, a) != {} then Err(MissingColumns(Missing(df, a)))
    else if forall r :: r in df.rows ==> Cell(r, a.observableCol) != Text(a.obsName) then Err(ObservableNotFound)
    else if Observed(df, a) == [] then Err(NoRowsForObservable)
    else CheckObserved(df.columns, df.rows, Observed(df, a), a)
  }

  /** The checks on the observable's rows: duplicates and sites. `all` is
      the unfiltered table, whose value column keeps its dtype. */
  function CheckObserved(columns: seq<Datum>, all: seq<Row>, rows: seq<Row>, a: CheckArgs): Result<bool, CheckError>
  {
    match DupSubset(a)
    case None => Err(SubsetColumnMissing)
    case Some(subset) =>
      if exists c :: c in subset && c !in columns then Err(SubsetColumnMissing)
      else if DuplicateCount(SubsetKeys(rows, subset)) > 0 then Err(DuplicatedRows(DuplicateCount(SubsetKeys(rows, subset))))
      else if exists s :: s in Groups(rows, a.idCol) && |Distincts(rows, a.idCol, s, a.siteCol)| > 1 then Err(MultipleSites)
      else if SmallSiteSet(rows, a) != {} then Err(SmallSites(SmallSiteSet(rows, a)))
      else CheckValues(all, rows, a)
  }

  /** The checks on values, coverage, variance and metadata. The dtype
      test looks at every row of the unfiltered table `all`; the others
      look at the observable's rows. */
  function CheckValues(all: seq<Row>, rows: seq<Row>, a: CheckArgs): Result<bool, CheckError>
  {
    if exists r :: r in all && Cell(r, a.valueCol).Text? then Err(ValueNotNumeric)
    else if exists r :: r in rows && Cell(r, a.valueCol) == Null then Err(NonFiniteValues)
    else if |CountSet(rows, a.idCol, a.parcelCol)| != 1 then Err(InconsistentParcels)
    else if a.level == "region" && a.regionCol.Some? && |CountSet(rows, a.idCol, a.regionCol.value)| != 1 then Err(InconsistentRegions)
    else if ZeroVarianceSet(rows, a) != {} then Err(ZeroVariance(ZeroVarianceSet(rows, a)))
    else match FirstNullColumn(rows, a.metadata)
      case Some(c) => Err(MetadataHasNull(c))
      case None => Ok(true)
  }

  // ---------------------------------------------------------------------
  // Properties of the pieces

  /** Some row repeats an earlier row's key exactly when the count is
      positive. */
  lemma {:induction false} DuplicateCountPositive<T>(keys: seq<T>)
    ensures DuplicateCount(keys) > 0 <==> exists i, j :: 0 <= i < j < |keys| && keys[i] == keys[j]
  {
    if keys != [] {
      var n := |keys| - 1;
      var p := keys[..n];
      DuplicateCountPositive(p);
      if DuplicateCount(keys) > 0 {
        if DuplicateCount(p) > 0 {
          var i, j :| 0 <= i < j < |p| && p[i] == p[j];
          assert keys[i] == keys[j];
        } else {
          var i :| 0 <= i < n && p[i] == keys[n];
          assert keys[i] == keys[n];
        }
      }
      if exists i, j :: 0 <= i < j < |keys| && keys[i] == keys[j] {
        var i, j :| 0 <= i < j < |keys| && keys[i] == keys[j];
        if j < n {
          assert p[i] == p[j];
        } else {
          assert p[i] == keys[n];
        }
      }
    }
  }

  /** A parcel has nonzero variance exactly when two of its rows hold
      different values. */
  lemma ParcelVarianceNonZero(rows: seq<Row>, parcelCol: Datum, p: Datum, valueCol: Datum)
    ensures !AllEqual(ParcelValues(rows, parcelCol, p, valueCol)) <==>
            exists r, s :: r in rows && s in rows && Cell(r, parcelCol) == p && Cell(s, parcelCol) == p
                           && NumValue(Cell(r, valueCol)) != NumValue(Cell(s, valueCol))
  {
    var vs := ParcelValues(rows, parcelCol, p, valueCol);
    if !AllEqual(vs) {
      var i, j :| 0 <= i < |vs| && 0 <= j < |vs| && vs[i] != vs[j];
      assert vs[i] in vs && vs[j] in vs;
    }
    if exists r, s :: r in rows && s in rows && Cell(r, parcelCol) == p && Cell(s, parcelCol) == p
                      && NumValue(Cell(r, valueCol)) != NumValue(Cell(s, valueCol)) {
      var r, s :| r in rows && s in rows && Cell(r, parcelCol) == p && Cell(s, parcelCol) == p
                  && NumValue(Cell(r, valueCol)) != NumValue(Cell(s, valueCol));
      var x, y := NumValue(Cell(r, valueCol)), NumValue(Cell(s, valueCol));
      assert x in vs && y in vs;
      var i :| 0 <= i < |vs| && vs[i] == x;
      var j :| 0 <= j < |vs| && vs[j] == y;
    }
  }

  /** `nunique() == 1` on the per-group counts: there are groups and they
      all have the same count. */
  lemma CountSetSingleton(rows: seq<Row>, keyCol: Datum, col: Datum)
    ensures |CountSet(rows, keyCol, col)| == 1 <==>
            Groups(rows, keyCol) != {}
            && forall g, h :: g in Groups(rows, keyCol) && h in Groups(rows, keyCol) ==>
                 |Distincts(rows, keyCol, g, col)| == |Distincts(rows, keyCol, h, col)|
  {
    var cs := CountSet(rows, keyCol, col);
    var gs := Groups(rows, keyCol);
    OneElement(cs);
    if gs != {} {
      var g :| g in gs;
      assert |Distincts(rows, keyCol, g, col)| in cs;
    }
    if forall c, d :: c in cs && d in cs ==> c == d {
      forall g, h | g in gs && h in gs ensures |Distincts(rows, keyCol, g, col)| == |Distincts(rows, keyCol, h, col)| {
        assert |Distincts(rows, keyCol, g, col)| in cs;
        assert |Distincts(rows, keyCol, h, col)| in cs;
      }
    }
    if forall g, h :: g in gs && h in gs ==> |Distincts(rows, keyCol, g, col)| == |Distincts(rows, keyCol, h, col)| {
      forall c, d | c in cs && d in cs ensures c == d {
        var g :| g in gs && |Distincts(rows, keyCol, g, col)| == c;
        var h :| h in gs && |Distincts(rows, keyCol, h, col)| == d;
      }
    }
  }

  /** A set has one element exactly when it is non-empty and any two of
      its elements are equal. */
  lemma OneElement<T>(s: set<T>)
    ensures |s| == 1 <==> s != {} && forall x, y :: x in s && y in s ==> x == y
  {
    if |s| == 1 {
      var c :| c in s;
      forall d | d in s ensures d == c {
        if d != c {
          assert |{c, d}| == 2;
          SubsetSize({c, d}, s);
        }
      }
    }
    if s != {} && forall x, y :: x in s && y in s ==> x == y {
      var c :| c in s;
      assert s == {c};
    }
  }

  lemma SubsetSize<T>(a: set<T>, b: set<T>)
    requires a <= b
    ensures |a| <= |b|
  {
    assert b == a + (b - a);
  }

  // ---------------------------------------------------------------------
  // The validator as a whole

  /** Everything the validator guarantees to `harmonize_dataset`, stated
      on the table directly. */
  predicate Ready(df: Frame, a: CheckArgs)
  {
    var rows := Observed(df, a);
    && (a.level == "region" ==> a.regionCol.Some? && a.regionCol.value in df.columns)
    && ColumnsPresent(df, a)
    && (exists r :: r in df.rows && Cell(r, a.observableCol) == Text(a.obsName))
    && ObservedReady(df.columns, df.rows, rows, a)
  }

  /** What the checks on the observable's rows guarantee. */
  predicate ObservedReady(columns: seq<Datum>, all: seq<Row>, rows: seq<Row>, a: CheckArgs)
  {
    && DupSubset(a).Some? && (forall c :: c in DupSubset(a).value ==> c in columns)
    && NoDuplicates(rows, DupSubset(a).value)
    && SitesReady(rows, a)
    && ValuesReady(all, rows, a)
    && CoverageReady(rows, a)
    && VarianceReady(rows, a)
    && MetadataReady(rows, a)
  }

  /** Every parcel has two rows whose values differ. */
  predicate VarianceReady(rows: seq<Row>, a: CheckArgs)
  {
    forall p :: p in Groups(rows, a.parcelCol) ==>
      exists r, s :: r in rows && s in rows && Cell(r, a.parcelCol) == p && Cell(s, a.parcelCol) == p
                     && NumValue(Cell(r, a.valueCol)) != NumValue(Cell(s, a.valueCol))
  }

  /** No metadata column has a null cell. */
  predicate MetadataReady(rows: seq<Row>, a: CheckArgs)
  {
    forall k, x :: 0 <= k < |a.metadata| && x in rows ==> Cell(x, a.metadata[k]) != Null
  }

  predicate ColumnsPresent(df: Frame, a: CheckArgs)
  {
    && a.idCol in df.columns && a.siteCol in df.columns && a.parcelCol in df.columns
    && a.valueCol in df.columns && a.observableCol in df.columns
    && forall k :: 0 <= k < |a.metadata| ==> a.metadata[k] in df.columns
  }

  /** No two rows agree on all subset columns. */
  predicate NoDuplicates(rows: seq<Row>, subset: seq<Datum>)
  {
    forall i, j :: 0 <= i < j < |rows| ==> KeyOf(rows[i], subset) != KeyOf(rows[j], subset)
  }

  /** Every subject has at most one site, and every site with a subject
      has at least the minimum number of them. */
  predicate SitesReady(rows: seq<Row>, a: CheckArgs)
  {
    && OneSiteEach(rows, a)
    && (forall s :: s in Groups(rows, a.siteCol) && Distincts(rows, a.siteCol, s, a.idCol) != {} ==>
          |Distincts(rows, a.siteCol, s, a.idCol)| >= a.minSubjectsPerSite)
  }

  /** Two rows of one subject never name two different sites. */
  predicate OneSiteEach(rows: seq<Row>, a: CheckArgs)
  {
    forall r, s :: r in rows && s in rows && Cell(r, a.idCol) != Null && Cell(r, a.idCol) == Cell(s, a.idCol) ==>
      Cell(r, a.siteCol) == Null || Cell(s, a.siteCol) == Null || Cell(r, a.siteCol) == Cell(s, a.siteCol)
  }

  /** No cell of the whole value column is text, and every value of the
      observable is a number. */
  predicate ValuesReady(all: seq<Row>, rows: seq<Row>, a: CheckArgs)
  {
    && (forall r :: r in all ==> !Cell(r, a.valueCol).Text?)
    && forall r :: r in rows ==> IsNumeric(Cell(r, a.valueCol))
  }

  /** There are subjects, they all have the same number of parcels, and at
      region level the same number of regions. */
  predicate CoverageReady(rows: seq<Row>, a: CheckArgs)
  {
    && Groups(rows, a.idCol) != {}
    && (forall g, h :: g in Groups(rows, a.idCol) && h in Groups(rows, a.idCol) ==>
          |Distincts(rows, a.idCol, g, a.parcelCol)| == |Distincts(rows, a.idCol, h, a.parcelCol)|)
    && (a.level == "region" && a.regionCol.Some? ==>
          forall g, h :: g in Groups(rows, a.idCol) && h in Groups(rows, a.idCol) ==>
            |Distincts(rows, a.idCol, g, a.regionCol.value)| == |Distincts(rows, a.idCol, h, a.regionCol.value)|)
  }

  /** At most one site per subject, stated on cells, is the check's
      "no subject has more than one distinct site". */
  lemma OneSitePerSubject(rows: seq<Row>, a: CheckArgs)
    ensures (forall s :: s in Groups(rows, a.idCol) ==> |Distincts(rows, a.idCol, s, a.siteCol)| <= 1) <==> OneSiteEach(rows, a)
  {
    if forall s :: s in Groups(rows, a.idCol) ==> |Distincts(rows, a.idCol, s, a.siteCol)| <= 1 {
      forall r, s | r in rows && s in rows && Cell(r, a.idCol) != Null && Cell(r, a.idCol) == Cell(s, a.idCol)
                    && Cell(r, a.siteCol) != Null && Cell(s, a.siteCol) != Null
        ensures Cell(r, a.siteCol) == Cell(s, a.siteCol)
      {
        var d := Distincts(rows, a.idCol, Cell(r, a.idCol), a.siteCol);
        assert Cell(r, a.idCol) in Groups(rows, a.idCol);
        assert Cell(r, a.siteCol) in d && Cell(s, a.siteCol) in d;
        if Cell(r, a.siteCol) != Cell(s, a.siteCol) {
          SubsetSize({Cell(r, a.siteCol), Cell(s, a.siteCol)}, d);
        }
      }
    }
    if OneSiteEach(rows, a) {
      forall g | g in Groups(rows, a.idCol) ensures |Distincts(rows, a.idCol, g, a.siteCol)| <= 1 {
        var d := Distincts(rows, a.idCol, g, a.siteCol);
        if d != {} {
          var x :| x in d;
          assert d == {x};
        }
      }
    }
  }

  /** The observable occurs, so rows remain after the filter: the
      "no rows remain" error is never raised. */
  lemma NoRowsNeverRaised(df: Frame, a: CheckArgs)
    ensures SanityCheckLongDf(df, a) != Err(NoRowsForObservable)
  {
    ObservedNonEmpty(df, a);
    CheckObservedNotNoRows(df.columns, df.rows, Observed(df, a), a);
  }

  lemma ObservedNonEmpty(df: Frame, a: CheckArgs)
    ensures (exists r :: r in df.rows && Cell(r, a.observableCol) == Text(a.obsName)) ==> Observed(df, a) != []
  {
    if exists r :: r in df.rows && Cell(r, a.observableCol) == Text(a.obsName) {
      var r :| r in df.rows && Cell(r, a.observableCol) == Text(a.obsName);
      assert r in Observed(df, a);
    }
  }

  lemma CheckObservedNotNoRows(columns: seq<Datum>, all: seq<Row>, rows: seq<Row>, a: CheckArgs)
    ensures CheckObserved(columns, all, rows, a) != Err(NoRowsForObservable)
  {
    CheckValuesNotNoRows(all, rows, a);
  }

  lemma CheckValuesNotNoRows(all: seq<Row>, rows: seq<Row>, a: CheckArgs)
    ensures CheckValues(all, rows, a) != Err(NoRowsForObservable)
  {
  }

  /** No required column is missing exactly when the five named columns,
      the metadata columns and, at region level, the region column are all
      in the table. */
  lemma MissingEmpty(df: Frame, a: CheckArgs)
    ensures Missing(df, a) == {} <==>
            ColumnsPresent(df, a) && (a.level == "region" && a.regionCol.Some? ==> a.regionCol.value in df.columns)
  {
    if Missing(df, a) == {} {
      forall x | x in Required(a) ensures x in df.columns {
        assert x !in Missing(df, a);
      }
      forall k | 0 <= k < |a.metadata| ensures a.metadata[k] in df.columns {
        assert a.metadata[k] in Required(a);
      }
    }
  }

  /** `duplicated(subset).sum() == 0` exactly when no two rows agree on the
      subset. */
  lemma NoDuplicatesIff(rows: seq<Row>, subset: seq<Datum>)
    ensures DuplicateCount(SubsetKeys(rows, subset)) == 0 <==> NoDuplicates(rows, subset)
  {
    var ks := SubsetKeys(rows, subset);
    DuplicateCountPositive(ks);
    assert forall i :: 0 <= i < |rows| ==> ks[i] == KeyOf(rows[i], subset);
  }

  /** No small site exactly when every site with a subject has enough. */
  lemma SmallSitesEmpty(rows: seq<Row>, a: CheckArgs)
    ensures SmallSiteSet(rows, a) == {} <==>
            forall s :: s in Groups(rows, a.siteCol) && Distincts(rows, a.siteCol, s, a.idCol) != {} ==>
              |Distincts(rows, a.siteCol, s, a.idCol)| >= a.minSubjectsPerSite
  {
    if SmallSiteSet(rows, a) == {} {
      forall s | s in Groups(rows, a.siteCol) && Distincts(rows, a.siteCol, s, a.idCol) != {}
        ensures |Distincts(rows, a.siteCol, s, a.idCol)| >= a.minSubjectsPerSite
      {
        assert s !in SmallSiteSet(rows, a);
      }
    }
  }

  /** No zero-variance parcel exactly when every parcel has two differing
      values. */
  lemma ZeroVarianceEmpty(rows: seq<Row>, a: CheckArgs)
    ensures ZeroVarianceSet(rows, a) == {} <==> VarianceReady(rows, a)
  {
    if ZeroVarianceSet(rows, a) == {} {
      forall p | p in Groups(rows, a.parcelCol)
        ensures exists r, s :: r in rows && s in rows && Cell(r, a.parcelCol) == p && Cell(s, a.parcelCol) == p
                               && NumValue(Cell(r, a.valueCol)) != NumValue(Cell(s, a.valueCol))
      {
        assert p !in ZeroVarianceSet(rows, a);
        ParcelVarianceNonZero(rows, a.parcelCol, p, a.valueCol);
      }
    }
    if VarianceReady(rows, a) {
      forall p | p in Groups(rows, a.parcelCol) ensures p !in ZeroVarianceSet(rows, a) {
        ParcelVarianceNonZero(rows, a.parcelCol, p, a.valueCol);
      }
    }
  }

  /** The value-level checks pass exactly when no cell of the table's
      value column is text, the observable's values are numbers, the
      coverage is uniform, every parcel varies and the metadata is
      complete. `rows` is a filter of `all`. */
  lemma CheckValuesOk(all: seq<Row>, rows: seq<Row>, a: CheckArgs)
    requires forall r :: r in rows ==> r in all
    ensures CheckValues(all, rows, a) == Ok(true) <==>
            ValuesReady(all, rows, a) && CoverageReady(rows, a) && VarianceReady(rows, a) && MetadataReady(rows, a)
  {
    CountSetSingleton(rows, a.idCol, a.parcelCol);
    if a.regionCol.Some? {
      CountSetSingleton(rows, a.idCol, a.regionCol.value);
    }
    ZeroVarianceEmpty(rows, a);
    if ValuesReady(all, rows, a) {
      assert forall r :: r in rows ==> Cell(r, a.valueCol) != Null;
    }
    if !(exists r :: r in all && Cell(r, a.valueCol).Text?) && !(exists r :: r in rows && Cell(r, a.valueCol) == Null) {
      assert forall r :: r in rows ==> IsNumeric(Cell(r, a.valueCol));
    }
  }

  /** The checks on the observable's rows pass exactly when the subset
      columns exist, no two rows share a key, the sites are sound and the
      value-level checks pass. */
  lemma CheckObservedOk(columns: seq<Datum>, all: seq<Row>, rows: seq<Row>, a: CheckArgs)
    requires forall r :: r in rows ==> r in all
    ensures CheckObserved(columns, all, rows, a) == Ok(true) <==> ObservedReady(columns, all, rows, a)
  {
    CheckValuesOk(all, rows, a);
    OneSitePerSubject(rows, a);
    SmallSitesEmpty(rows, a);
    if DupSubset(a).Some? {
      NoDuplicatesIff(rows, DupSubset(a).value);
    }
  }

  /** The checks run in order: once the columns exist and the observable
      occurs, two of its rows with the same duplicate key are reported as
      duplicates, whatever the later checks (sites, values, variance)
      would say. */
  lemma DuplicatesReportedFirst(df: Frame, a: CheckArgs, i: nat, j: nat)
    requires a.level == "global" || a.level == "parcel" || a.regionCol.Some?
    requires Missing(df, a) == {}
    requires forall c :: c in DupSubset(a).value ==> c in df.columns
    requires i < j < |Observed(df, a)|
    requires KeyOf(Observed(df, a)[i], DupSubset(a).value) == KeyOf(Observed(df, a)[j], DupSubset(a).value)
    ensures SanityCheckLongDf(df, a).Err? && SanityCheckLongDf(df, a).error.DuplicatedRows?
  {
    var rows := Observed(df, a);
    var subset := DupSubset(a).value;
    assert rows[i] in rows;
    var keys := SubsetKeys(rows, subset);
    assert keys[i] == keys[j];
    DuplicateCountPositive(keys);
  }

  /** The validator returns True exactly when the table is ready for
      harmonisation; every other outcome is one of its errors. */
  lemma SanityCheckOk(df: Frame, a: CheckArgs)
    ensures SanityCheckLongDf(df, a) == Ok(true) <==> Ready(df, a)
  {
    MissingEmpty(df, a);
    ObservedNonEmpty(df, a);
    CheckObservedOk(df.columns, df.rows, Observed(df, a), a);
  }

  /** A text value in any row of the table, even a row of another
      observable, makes the validator fail: the filtered value column
      keeps the whole column's object dtype. */
  lemma TextElsewhereRejected(df: Frame, a: CheckArgs, r: Row)
    requires r in df.rows && Cell(r, a.valueCol).Text?
    ensures SanityCheckLongDf(df, a) != Ok(true)
  {
    SanityCheckOk(df, a);
  }
}
