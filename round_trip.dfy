/** Pivoting one observable of a long table to wide format and flattening
    it back gives the same (id, parcel, value, metadata) records, for a
    long table in which every (id, parcel) cell is given once, the
    metadata is a function of the id, and every id has every parcel. */
module WideLongRoundTrip {
  import opened Frames
  import opened DataframeBuilder

  /** The column labels both conversions use: `long_to_wide(df, label,
      metadata, id_col, columns_name, values_name, observable_col)` and
      `wide_to_long(.., entity_col=id_col, index_col=columns_name,
      metadata, observable_col, obs_name=label, value_col=values_name)`. */
  datatype Layout = Layout(obsLabel: string, metadata: seq<Datum>, idCol: Datum, columnsName: Datum, valuesName: Datum, observableCol: Datum)

  function KeyCols(l: Layout): seq<Datum>
  {
    [l.idCol] + l.metadata
  }

  function Names(l: Layout): LongNames
  {
    LongNames(l.idCol, l.columnsName, l.observableCol, l.valuesName)
  }

  /** A row of the observable being converted. */
  predicate Selected(r: Row, l: Layout)
  {
    Cell(r, l.observableCol) == Text(l.obsLabel)
  }

  /** The record a row stands for: id, parcel, value, then metadata. */
  function Proj(r: Row, l: Layout): seq<Datum>
  {
    KeyOf(r, [l.idCol, l.columnsName, l.valuesName] + l.metadata)
  }

  /** Every needed column exists and the labels are pairwise distinct. */
  predicate WellLabelled(df: Frame, l: Layout)
  {
    && (forall c :: c in [l.observableCol, l.valuesName] + KeyCols(l) + [l.columnsName] ==> c in df.columns)
    && DistinctNames(Names(l), l.metadata)
  }

  /** The rows of the observable have every key, parcel and value, the
      values are reals, and no parcel is named like an index column. */
  predicate Complete(df: Frame, l: Layout)
  {
    forall r :: r in df.rows && Selected(r, l) ==>
      && NoNull(KeyOf(r, KeyCols(l))) && Cell(r, l.columnsName) != Null && Cell(r, l.valuesName).Real?
      && Cell(r, l.columnsName) !in KeyCols(l)
  }

  /** No (id, parcel) pair is given twice. */
  predicate UniqueCells(df: Frame, l: Layout)
  {
    forall i, j :: 0 <= i < j < |df.rows| && Selected(df.rows[i], l) && Selected(df.rows[j], l) ==>
      Cell(df.rows[i], l.idCol) != Cell(df.rows[j], l.idCol) || Cell(df.rows[i], l.columnsName) != Cell(df.rows[j], l.columnsName)
  }

  /** Rows of one id carry the same metadata. */
  predicate MetadataPerId(df: Frame, l: Layout)
  {
    forall r, s :: r in df.rows && s in df.rows && Selected(r, l) && Selected(s, l) && Cell(r, l.idCol) == Cell(s, l.idCol) ==>
      KeyOf(r, KeyCols(l)) == KeyOf(s, KeyCols(l))
  }

  /** Every id has a row for every parcel. */
  predicate Rectangular(df: Frame, l: Layout)
  {
    forall r, s :: r in df.rows && s in df.rows && Selected(r, l) && Selected(s, l) ==>
      HasCell(df, l, Cell(r, l.idCol), Cell(s, l.columnsName))
  }

  /** The observable has a row for this id and this parcel. */
  predicate HasCell(df: Frame, l: Layout, id: Datum, p: Datum)
  {
    exists t :: t in df.rows && Selected(t, l) && Cell(t, l.idCol) == id && Cell(t, l.columnsName) == p
  }

  function Usables(df: Frame, l: Layout): seq<Row>
  {
    UsableRows(df, l.obsLabel, l.observableCol, KeyCols(l), l.columnsName, l.valuesName)
  }

  function Wide(df: Frame, l: Layout): Frame
  {
    Pivot(Usables(df, l), KeyCols(l), l.columnsName, l.valuesName)
  }

  lemma KeyColsDistinct(l: Layout)
    requires DistinctNames(Names(l), l.metadata)
    ensures Distinct(KeyCols(l))
    ensures forall k :: 0 <= k < |l.metadata| ==> l.metadata[k] != l.idCol && l.metadata[k] != l.columnsName
                                                  && l.metadata[k] != l.valuesName && l.metadata[k] != l.observableCol
  {
    var all := [l.idCol, l.observableCol, l.columnsName, l.valuesName] + l.metadata;
    assert forall k :: 0 <= k < |l.metadata| ==> all[k + 4] == l.metadata[k];
    forall i, j | 0 <= i < j < |KeyCols(l)| ensures KeyCols(l)[i] != KeyCols(l)[j] {
      if i == 0 {
        assert all[0] != all[j + 3];
      } else {
        assert all[i + 3] != all[j + 3];
      }
    }
    forall k | 0 <= k < |l.metadata|
      ensures l.metadata[k] != l.idCol && l.metadata[k] != l.columnsName
      ensures l.metadata[k] != l.valuesName && l.metadata[k] != l.observableCol
    {
      assert all[0] != all[k + 4] && all[1] != all[k + 4] && all[2] != all[k + 4] && all[3] != all[k + 4];
    }
  }

  /** The usable rows are exactly the observable's rows. */
  lemma UsableAreSelected(df: Frame, l: Layout)
    requires Complete(df, l)
    ensures forall r :: r in Usables(df, l) <==> r in df.rows && Selected(r, l)
  {
  }

  /** The pivot succeeds and is the pivot of the observable's rows. */
  lemma PivotSucceeds(df: Frame, l: Layout)
    requires WellLabelled(df, l) && Complete(df, l)
    ensures LongToWide(df, l.obsLabel, l.metadata, l.idCol, l.columnsName, l.valuesName, l.observableCol) == Ok(Wide(df, l))
  {
    UsableAreSelected(df, l);
    assert KeyCols(l) == [l.idCol] + l.metadata;
  }

  /** The feature columns of the wide table are its parcels. */
  lemma WideFeatures(df: Frame, l: Layout)
    requires WellLabelled(df, l) && Complete(df, l)
    ensures forall c :: c in Features(Wide(df, l).columns, l.idCol, l.metadata) <==> c in ColumnKeys(Usables(df, l), l.columnsName)
  {
    UsableAreSelected(df, l);
    var parcels := ColumnKeys(Usables(df, l), l.columnsName);
    assert Wide(df, l).columns == KeyCols(l) + parcels;
    forall c | c in parcels ensures c !in KeyCols(l) {
      var r :| r in Usables(df, l) && Cell(r, l.columnsName) == c;
    }
  }

  /** Two usable rows with the same id and parcel are the same row. */
  lemma SameCell(df: Frame, l: Layout, v: Row, t: Row)
    requires UniqueCells(df, l)
    requires v in df.rows && t in df.rows && Selected(v, l) && Selected(t, l)
    requires Cell(v, l.idCol) == Cell(t, l.idCol) && Cell(v, l.columnsName) == Cell(t, l.columnsName)
    ensures v == t
  {
    var a :| 0 <= a < |df.rows| && df.rows[a] == v;
    var b :| 0 <= b < |df.rows| && df.rows[b] == t;
    if a < b {
    } else if b < a {
    }
  }

  /** The pivot cell of a (key, parcel) given by row t is t's value. */
  lemma CellOfUniqueRow(df: Frame, l: Layout, t: Row)
    requires Complete(df, l) && UniqueCells(df, l)
    requires t in df.rows && Selected(t, l)
    ensures Aggregate(Matching(Usables(df, l), KeyCols(l), KeyOf(t, KeyCols(l)), l.columnsName, Cell(t, l.columnsName), l.valuesName))
            == Cell(t, l.valuesName)
  {
    UsableAreSelected(df, l);
    var usable := Usables(df, l);
    var key := KeyOf(t, KeyCols(l));
    var p := Cell(t, l.columnsName);
    var vs := Matching(usable, KeyCols(l), key, l.columnsName, p, l.valuesName);
    var x := NumValue(Cell(t, l.valuesName));
    assert x in vs;
    forall i | 0 <= i < |vs| ensures vs[i] == x {
      assert vs[i] in vs;
      var r :| r in usable && KeyOf(r, KeyCols(l)) == key && Cell(r, l.columnsName) == p && NumValue(Cell(r, l.valuesName)) == vs[i];
      assert KeyOf(r, KeyCols(l))[0] == key[0];
      SameCell(df, l, r, t);
    }
    MeanOfConstant(vs, x);
  }

  /** A parcel of the pivot is no index column. */
  lemma ParcelNotKey(df: Frame, l: Layout, p: Datum)
    requires Complete(df, l) && p in ColumnKeys(Usables(df, l), l.columnsName)
    ensures p !in KeyCols(l)
  {
    UsableAreSelected(df, l);
    var r :| r in Usables(df, l) && Cell(r, l.columnsName) == p;
  }

  lemma ProjFields(r: Row, l: Layout)
    ensures Proj(r, l) == [Cell(r, l.idCol), Cell(r, l.columnsName), Cell(r, l.valuesName)] + KeyOf(r, l.metadata)
  {
    KeyOfAppend(r, [l.idCol, l.columnsName, l.valuesName], l.metadata);
  }

  lemma KeyColsFields(r: Row, l: Layout)
    ensures KeyOf(r, KeyCols(l)) == [Cell(r, l.idCol)] + KeyOf(r, l.metadata)
  {
    KeyOfAppend(r, [l.idCol], l.metadata);
  }

  /** The record for wide row w and parcel p projects to the key of w,
      p, and w's cell under p. */
  lemma ProjOfRecord(w: Row, p: Datum, l: Layout)
    requires DistinctNames(Names(l), l.metadata)
    ensures var rec := Record(Cell(w, l.idCol), w, p, Names(l), l.obsLabel, l.metadata);
            var key := KeyOf(w, KeyCols(l));
            && Proj(rec, l) == [key[0], p, Cell(w, p)] + key[1..]
            && Cell(rec, l.observableCol) == Text(l.obsLabel)
  {
    var rec := Record(Cell(w, l.idCol), w, p, Names(l), l.obsLabel, l.metadata);
    RecordFields(Cell(w, l.idCol), w, p, Names(l), l.obsLabel, l.metadata);
    assert KeyOf(rec, l.metadata) == KeyOf(w, l.metadata);
    ProjFields(rec, l);
    KeyColsFields(w, l);
  }

  lemma ProjOfRow(t: Row, l: Layout)
    ensures var key := KeyOf(t, KeyCols(l));
            Proj(t, l) == [key[0], Cell(t, l.columnsName), Cell(t, l.valuesName)] + key[1..]
  {
    ProjFields(t, l);
    KeyColsFields(t, l);
  }

  /** Membership in the records of a table. */
  lemma RecordsMember(rows: seq<Row>, feats: seq<Datum>, names: LongNames, obsName: string, metadata: seq<Datum>, x: Row)
    ensures x in Records(rows, feats, names, obsName, metadata) <==>
            exists i, j :: 0 <= i < |rows| && 0 <= j < |feats| && x == Record(Cell(rows[i], names.entity), rows[i], feats[j], names, obsName, metadata)
  {
    var b := RecordBlocks(rows, feats, names, obsName, metadata);
    FlattenMember(b, x);
    if x in Records(rows, feats, names, obsName, metadata) {
      var i :| 0 <= i < |b| && x in b[i];
      var j :| 0 <= j < |b[i]| && b[i][j] == x;
    }
    if exists i, j :: 0 <= i < |rows| && 0 <= j < |feats| && x == Record(Cell(rows[i], names.entity), rows[i], feats[j], names, obsName, metadata) {
      var i, j :| 0 <= i < |rows| && 0 <= j < |feats| && x == Record(Cell(rows[i], names.entity), rows[i], feats[j], names, obsName, metadata);
      assert b[i][j] == x;
    }
  }

  /** Flattening the pivot succeeds. */
  lemma FlattenSucceeds(df: Frame, l: Layout)
    requires WellLabelled(df, l) && Complete(df, l)
    ensures WideToLongResult(Wide(df, l), Names(l), l.metadata, l.obsLabel).Ok?
    ensures WideToLongResult(Wide(df, l), Names(l), l.metadata, l.obsLabel).value.rows
            == Records(Wide(df, l).rows, Features(Wide(df, l).columns, l.idCol, l.metadata), Names(l), l.obsLabel, l.metadata)
  {
    var w := Wide(df, l);
    assert w.columns == KeyCols(l) + ColumnKeys(Usables(df, l), l.columnsName);
    assert FirstMissing(l.metadata, w.columns).None?;
  }

  /** The cell of wide row i under parcel p, when row t of the observable
      has row i's key and parcel p, is t's value. */
  lemma WideCellIsValue(df: Frame, l: Layout, i: nat, t: Row)
    requires WellLabelled(df, l) && Complete(df, l) && UniqueCells(df, l)
    requires i < |Wide(df, l).rows| && t in df.rows && Selected(t, l)
    requires KeyOf(Wide(df, l).rows[i], KeyCols(l)) == KeyOf(t, KeyCols(l))
    ensures Cell(Wide(df, l).rows[i], Cell(t, l.columnsName)) == Cell(t, l.valuesName)
  {
    UsableAreSelected(df, l);
    KeyColsDistinct(l);
    var p := Cell(t, l.columnsName);
    assert p in ColumnKeys(Usables(df, l), l.columnsName);
    ParcelNotKey(df, l, p);
    PivotCell(Usables(df, l), KeyCols(l), l.columnsName, l.valuesName, i, p);
    CellOfUniqueRow(df, l, t);
  }

  /** A flattened record comes from a wide row and a parcel. */
  lemma RecordOrigin(df: Frame, l: Layout, x: Row)
    requires WellLabelled(df, l) && Complete(df, l)
    requires x in WideToLongResult(Wide(df, l), Names(l), l.metadata, l.obsLabel).value.rows
    ensures exists i, p :: 0 <= i < |Wide(df, l).rows| && p in ColumnKeys(Usables(df, l), l.columnsName)
                           && x == Record(Cell(Wide(df, l).rows[i], l.idCol), Wide(df, l).rows[i], p, Names(l), l.obsLabel, l.metadata)
  {
    var w := Wide(df, l);
    var feats := Features(w.columns, l.idCol, l.metadata);
    FlattenSucceeds(df, l);
    RecordsMember(w.rows, feats, Names(l), l.obsLabel, l.metadata, x);
    var i, j :| 0 <= i < |w.rows| && 0 <= j < |feats| && x == Record(Cell(w.rows[i], l.idCol), w.rows[i], feats[j], Names(l), l.obsLabel, l.metadata);
    WideFeatures(df, l);
    assert feats[j] in feats;
  }

  /** A row u of the observable and a parcel p give a row of u's id for p,
      which carries u's metadata. */
  lemma RowForParcel(df: Frame, l: Layout, u: Row, p: Datum) returns (t: Row)
    requires Complete(df, l) && MetadataPerId(df, l) && Rectangular(df, l)
    requires u in df.rows && Selected(u, l) && p in ColumnKeys(Usables(df, l), l.columnsName)
    ensures t in df.rows && Selected(t, l) && Cell(t, l.columnsName) == p
    ensures KeyOf(t, KeyCols(l)) == KeyOf(u, KeyCols(l))
  {
    UsableAreSelected(df, l);
    var s :| s in Usables(df, l) && Cell(s, l.columnsName) == p;
    assert s in df.rows && Selected(s, l);
    t :| t in df.rows && Selected(t, l) && Cell(t, l.idCol) == Cell(u, l.idCol) && Cell(t, l.columnsName) == Cell(s, l.columnsName);
  }

  /** Wide row i and parcel p stand for a row of the observable. */
  lemma WitnessRow(df: Frame, l: Layout, i: nat, p: Datum) returns (t: Row)
    requires WellLabelled(df, l) && Complete(df, l) && MetadataPerId(df, l) && Rectangular(df, l)
    requires i < |Wide(df, l).rows| && p in ColumnKeys(Usables(df, l), l.columnsName)
    ensures t in df.rows && Selected(t, l) && Cell(t, l.columnsName) == p
    ensures KeyOf(t, KeyCols(l)) == KeyOf(Wide(df, l).rows[i], KeyCols(l))
  {
    KeyColsDistinct(l);
    UsableAreSelected(df, l);
    PivotFrom(Usables(df, l), KeyCols(l), l.columnsName, l.valuesName, i);
    var u :| u in Usables(df, l) && KeyOf(Wide(df, l).rows[i], KeyCols(l)) == KeyOf(u, KeyCols(l));
    t := RowForParcel(df, l, u, p);
  }

  /** Every flattened record is a record of the original table. */
  lemma RoundTripSound(df: Frame, l: Layout, x: Row)
    requires WellLabelled(df, l) && Complete(df, l) && UniqueCells(df, l) && MetadataPerId(df, l) && Rectangular(df, l)
    requires x in WideToLongResult(Wide(df, l), Names(l), l.metadata, l.obsLabel).value.rows
    ensures Selected(x, l)
    ensures exists t :: t in df.rows && Selected(t, l) && Proj(t, l) == Proj(x, l)
  {
    var w := Wide(df, l);
    RecordOrigin(df, l, x);
    var i, p :| 0 <= i < |w.rows| && p in ColumnKeys(Usables(df, l), l.columnsName)
                && x == Record(Cell(w.rows[i], l.idCol), w.rows[i], p, Names(l), l.obsLabel, l.metadata);
    ProjOfRecord(w.rows[i], p, l);
    var t := WitnessRow(df, l, i, p);
    WideCellIsValue(df, l, i, t);
    ProjOfRow(t, l);
  }

  /** Every row of the observable comes back as a flattened record. */
  lemma RoundTripComplete(df: Frame, l: Layout, t: Row)
    requires WellLabelled(df, l) && Complete(df, l) && UniqueCells(df, l)
    requires t in df.rows && Selected(t, l)
    ensures exists x :: x in WideToLongResult(Wide(df, l), Names(l), l.metadata, l.obsLabel).value.rows && Proj(x, l) == Proj(t, l)
  {
    var w := Wide(df, l);
    var usable := Usables(df, l);
    var feats := Features(w.columns, l.idCol, l.metadata);
    FlattenSucceeds(df, l);
    UsableAreSelected(df, l);
    KeyColsDistinct(l);
    PivotCovers(usable, KeyCols(l), l.columnsName, l.valuesName, t);
    var i :| 0 <= i < |w.rows| && KeyOf(w.rows[i], KeyCols(l)) == KeyOf(t, KeyCols(l));
    var p := Cell(t, l.columnsName);
    assert p in ColumnKeys(usable, l.columnsName);
    WideFeatures(df, l);
    assert p in feats;
    var j :| 0 <= j < |feats| && feats[j] == p;
    var x := Record(Cell(w.rows[i], l.idCol), w.rows[i], p, Names(l), l.obsLabel, l.metadata);
    RecordsMember(w.rows, feats, Names(l), l.obsLabel, l.metadata, x);
    ProjOfRecord(w.rows[i], p, l);
    WideCellIsValue(df, l, i, t);
    ProjOfRow(t, l);
  }

  /** The round trip: `wide_to_long(long_to_wide(df))` succeeds, every
      record has the observable's name, and its (id, parcel, value,
      metadata) records are exactly those of the observable's rows. */
  lemma RoundTrip(df: Frame, l: Layout)
    requires WellLabelled(df, l) && Complete(df, l) && UniqueCells(df, l) && MetadataPerId(df, l) && Rectangular(df, l)
    ensures LongToWide(df, l.obsLabel, l.metadata, l.idCol, l.columnsName, l.valuesName, l.observableCol).Ok?
    ensures var w := LongToWide(df, l.obsLabel, l.metadata, l.idCol, l.columnsName, l.valuesName, l.observableCol).value;
            && WideToLongResult(w, Names(l), l.metadata, l.obsLabel).Ok?
            && var out := WideToLongResult(w, Names(l), l.metadata, l.obsLabel).value.rows;
               && (forall x :: x in out ==> Selected(x, l))
               && (set x | x in out :: Proj(x, l)) == (set t | t in df.rows && Selected(t, l) :: Proj(t, l))
  {
    PivotSucceeds(df, l);
    FlattenSucceeds(df, l);
    var out := WideToLongResult(Wide(df, l), Names(l), l.metadata, l.obsLabel).value.rows;
    forall x | x in out ensures Selected(x, l) && Proj(x, l) in (set t | t in df.rows && Selected(t, l) :: Proj(t, l)) {
      RoundTripSound(df, l, x);
    }
    forall t | t in df.rows && Selected(t, l) ensures Proj(t, l) in (set x | x in out :: Proj(x, l)) {
      RoundTripComplete(df, l, t);
    }
  }
}
