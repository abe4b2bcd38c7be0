/** Long- and wide-format tables built from per-entity observables: one
    long row per (entity, observable, index), the pivot of one observable
    to one row per entity, and the flattening of a wide table back to
    long rows. */
module DataframeBuilder {
  import opened Frames

  // ---------------------------------------------------------------------
  // Observables of one entity

  /** An observable's value: a scalar, or a vector indexed by parcel. */
  datatype ObsValue = Scalar(x: Datum) | Vector(xs: seq<Datum>)

  /** A dict of observables, in insertion order. */
  type ObsDict = seq<(string, ObsValue)>

  /** What an observable loader returns: one dict (`use_RSN` false), or
      one dict per resting-state network (`use_RSN` true). */
  datatype ObsInput = Flat(obs: ObsDict) | Nested(groups: seq<(string, ObsDict)>)

  /** `as_dict_iter`: the (key, dict) pairs to process; a flat dict is one
      anonymous pair. */
  function AsDictIter(data: ObsInput): (r: seq<(Option<string>, ObsDict)>)
    ensures data.Flat? ==> r == [(None, data.obs)]
    ensures data.Nested? ==> |r| == |data.groups|
    ensures data.Nested? ==> forall i :: 0 <= i < |r| ==> r[i] == (Some(data.groups[i].0), data.groups[i].1)
  {
    match data
    case Flat(obs) => [(None, obs)]
    case Nested(groups) => seq(|groups|, i requires 0 <= i < |groups| => (Some(groups[i].0), groups[i].1))
  }

  /** The `RSN` cell of the rows of one dict: its network key, or
      `Whole-Brain` for the anonymous dict. */
  function RsnOf(key: Option<string>): Datum
  {
    match key
    case None => Text("Whole-Brain")
    case Some(k) => Text(k)
  }

  /** The index column's name does not clash with the fixed columns. */
  predicate IndexNameFree(indexName: string)
  {
    indexName != "id" && indexName != "observable" && indexName != "value" && indexName != "RSN"
  }

  /** One long row: the dict literal of `process_single_row`, whose later
      keys win when `index_name` repeats a fixed name. */
  function MakeRow(entityId: string, obsName: string, indexName: string, idx: Datum, v: Datum, rsn: Datum): (r: Row)
    ensures r.Keys == {Text("id"), Text("observable"), Text(indexName), Text("value"), Text("RSN")}
    ensures IndexNameFree(indexName) ==>
              && r[Text("id")] == Text(entityId) && r[Text("observable")] == Text(obsName)
              && r[Text(indexName)] == idx && r[Text("value")] == v && r[Text("RSN")] == rsn
  {
    map[Text("id") := Text(entityId)][Text("observable") := Text(obsName)][Text(indexName) := idx]
       [Text("value") := v][Text("RSN") := rsn]
  }

  /** The rows of one observable. */
  function ObsRows(entityId: string, obsName: string, value: ObsValue, indexName: string, rsn: Datum): seq<Row>
  {
    match value
    case Scalar(x) => [MakeRow(entityId, obsName, indexName, Null, x, rsn)]
    case Vector(xs) => seq(|xs|, i requires 0 <= i < |xs| => MakeRow(entityId, obsName, indexName, Int(i), xs[i], rsn))
  }

  /** The rows `process_single_row(obs, rsn)` returns. */
  function SingleRows(entityId: string, obs: ObsDict, indexName: string, rsn: Datum): seq<Row>
  {
    if obs == [] then []
    else
      var n := |obs| - 1;
      SingleRows(entityId, obs[..n], indexName, rsn) + ObsRows(entityId, obs[n].0, obs[n].1, indexName, rsn)
  }

  /** The rows of each dict, one list per dict. */
  function Parts(entityId: string, dicts: seq<(Option<string>, ObsDict)>, indexName: string): (r: seq<seq<Row>>)
    ensures |r| == |dicts|
  {
    seq(|dicts|, i requires 0 <= i < |dicts| => SingleRows(entityId, dicts[i].1, indexName, RsnOf(dicts[i].0)))
  }

  /** The rows of all dicts, flattened in order. */
  function LongRows(entityId: string, dicts: seq<(Option<string>, ObsDict)>, indexName: string): seq<Row>
  {
    Flatten(Parts(entityId, dicts, indexName))
  }

  lemma LongRowsStep(entityId: string, dicts: seq<(Option<string>, ObsDict)>, k: nat, indexName: string)
    requires k < |dicts|
    ensures LongRows(entityId, dicts[..k + 1], indexName)
            == LongRows(entityId, dicts[..k], indexName) + SingleRows(entityId, dicts[k].1, indexName, RsnOf(dicts[k].0))
  {
    var p := Parts(entityId, dicts[..k + 1], indexName);
    assert p[..k] == Parts(entityId, dicts[..k], indexName);
  }

  /** How many rows an observable contributes. */
  function Size(v: ObsValue): nat
  {
    match v
    case Scalar(_) => 1
    case Vector(xs) => |xs|
  }

  function RowCount(obs: ObsDict): nat
  {
    if obs == [] then 0 else RowCount(obs[..|obs| - 1]) + Size(obs[|obs| - 1].1)
  }

  function NestedRowCount(dicts: seq<(Option<string>, ObsDict)>): nat
  {
    if dicts == [] then 0 else NestedRowCount(dicts[..|dicts| - 1]) + RowCount(dicts[|dicts| - 1].1)
  }

  /** A scalar observable gives one row, with no index and the scalar as
      value. */
  lemma ScalarObservableRow(entityId: string, obsName: string, x: Datum, indexName: string, rsn: Datum)
    requires IndexNameFree(indexName)
    ensures var rows := ObsRows(entityId, obsName, Scalar(x), indexName, rsn);
            && |rows| == 1
            && rows[0][Text(indexName)] == Null && rows[0][Text("value")] == x
            && rows[0][Text("id")] == Text(entityId) && rows[0][Text("observable")] == Text(obsName)
            && rows[0][Text("RSN")] == rsn
  {
  }

  /** A vector of length k gives k rows, row i with index i and value v[i]. */
  lemma VectorObservableRows(entityId: string, obsName: string, xs: seq<Datum>, indexName: string, rsn: Datum)
    requires IndexNameFree(indexName)
    ensures var rows := ObsRows(entityId, obsName, Vector(xs), indexName, rsn);
            && |rows| == |xs|
            && forall i :: 0 <= i < |xs| ==>
                 && rows[i][Text(indexName)] == Int(i) && rows[i][Text("value")] == xs[i]
                 && rows[i][Text("id")] == Text(entityId) && rows[i][Text("observable")] == Text(obsName)
                 && rows[i][Text("RSN")] == rsn
  {
  }

  /** One row per scalar, one per vector element. */
  lemma {:induction false} SingleRowsCount(entityId: string, obs: ObsDict, indexName: string, rsn: Datum)
    ensures |SingleRows(entityId, obs, indexName, rsn)| == RowCount(obs)
  {
    if obs != [] {
      var n := |obs| - 1;
      SingleRowsCount(entityId, obs[..n], indexName, rsn);
      match obs[n].1
      case Scalar(_) =>
      case Vector(xs) =>
    }
  }

  lemma {:induction false} LongRowsCount(entityId: string, dicts: seq<(Option<string>, ObsDict)>, indexName: string)
    ensures |LongRows(entityId, dicts, indexName)| == NestedRowCount(dicts)
  {
    if dicts != [] {
      var n := |dicts| - 1;
      LongRowsCount(entityId, dicts[..n], indexName);
      SingleRowsCount(entityId, dicts[n].1, indexName, RsnOf(dicts[n].0));
      LongRowsStep(entityId, dicts, n, indexName);
      assert dicts[..n + 1] == dicts;
    }
  }

  /** The dicts are flattened in order: the rows of a concatenation of
      dicts are the rows of the first part followed by those of the second. */
  lemma LongRowsAppend(entityId: string, a: seq<(Option<string>, ObsDict)>, b: seq<(Option<string>, ObsDict)>, indexName: string)
    ensures LongRows(entityId, a + b, indexName) == LongRows(entityId, a, indexName) + LongRows(entityId, b, indexName)
  {
    assert Parts(entityId, a + b, indexName) == Parts(entityId, a, indexName) + Parts(entityId, b, indexName);
    FlattenAppend(Parts(entityId, a, indexName), Parts(entityId, b, indexName));
  }

  /** Every row of one dict carries that entity's id and the dict's
      `RSN` label. */
  lemma {:induction false} SingleRowsLabels(entityId: string, obs: ObsDict, indexName: string, rsn: Datum)
    requires IndexNameFree(indexName)
    ensures forall r :: r in SingleRows(entityId, obs, indexName, rsn) ==>
              Cell(r, Text("id")) == Text(entityId) && Cell(r, Text("RSN")) == rsn
  {
    if obs != [] {
      var n := |obs| - 1;
      SingleRowsLabels(entityId, obs[..n], indexName, rsn);
      ObsRowsLabels(entityId, obs[n].0, obs[n].1, indexName, rsn);
    }
  }

  lemma ObsRowsLabels(entityId: string, obsName: string, value: ObsValue, indexName: string, rsn: Datum)
    requires IndexNameFree(indexName)
    ensures forall r :: r in ObsRows(entityId, obsName, value, indexName, rsn) ==>
              Cell(r, Text("id")) == Text(entityId) && Cell(r, Text("RSN")) == rsn
  {
    var rows := ObsRows(entityId, obsName, value, indexName, rsn);
    forall r | r in rows ensures Cell(r, Text("id")) == Text(entityId) && Cell(r, Text("RSN")) == rsn {
      var i :| 0 <= i < |rows| && rows[i] == r;
    }
  }

  /** With `use_RSN` false every row is labelled `Whole-Brain`. */
  lemma FlatRowsWholeBrain(entityId: string, obs: ObsDict, indexName: string)
    requires IndexNameFree(indexName)
    ensures forall r :: r in LongRows(entityId, AsDictIter(Flat(obs)), indexName) ==>
              Cell(r, Text("RSN")) == Text("Whole-Brain") && Cell(r, Text("id")) == Text(entityId)
  {
    var d := AsDictIter(Flat(obs));
    LongRowsStep(entityId, d, 0, indexName);
    assert d[..1] == d;
    assert LongRows(entityId, d[..0], indexName) == [];
    SingleRowsLabels(entityId, obs, indexName, Text("Whole-Brain"));
  }

  // ---------------------------------------------------------------------
  // `observables_to_long_dataframe`

  /** Columns of a frame built from long rows, in order of first appearance. */
  function LongColumns(indexName: string): seq<Datum>
  {
    Dedup([Text("id"), Text("observable"), Text(indexName), Text("value"), Text("RSN")])
  }

  /** `df[key] = val`: every row gets the cell; a new label is appended to
      the columns. */
  function AddColumn(df: Frame, key: Datum, val: Datum): (r: Frame)
    ensures |r.rows| == |df.rows|
  {
    Frame(if key in df.columns then df.columns else df.columns + [key],
          seq(|df.rows|, i requires 0 <= i < |df.rows| => df.rows[i][key := val]))
  }

  function WithMetadata(df: Frame, metadata: seq<(string, Datum)>): (r: Frame)
    ensures |r.rows| == |df.rows|
  {
    if metadata == [] then df
    else
      var n := |metadata| - 1;
      AddColumn(WithMetadata(df, metadata[..n]), Text(metadata[n].0), metadata[n].1)
  }

  /** The frame `observables_to_long_dataframe` returns. */
  function LongFrame(entityId: string, data: ObsInput, metadata: seq<(string, Datum)>, indexName: string): Frame
  {
    var rows := LongRows(entityId, AsDictIter(data), indexName);
    WithMetadata(Frame(if rows == [] then [] else LongColumns(indexName), rows), metadata)
  }

  /** Metadata keys are distinct, as in a dict. */
  predicate DistinctKeys(metadata: seq<(string, Datum)>)
  {
    forall i, j :: 0 <= i < j < |metadata| ==> metadata[i].0 != metadata[j].0
  }

  /** Every metadata key and value is attached to every row, every other
      cell is left as it was, and the metadata labels become columns. */
  lemma {:induction false} MetadataAttached(df: Frame, metadata: seq<(string, Datum)>)
    requires DistinctKeys(metadata)
    ensures var r := WithMetadata(df, metadata);
            && (forall i, k :: 0 <= i < |r.rows| && 0 <= k < |metadata| ==>
                  Cell(r.rows[i], Text(metadata[k].0)) == metadata[k].1)
            && (forall i, c :: 0 <= i < |r.rows| && (forall k :: 0 <= k < |metadata| ==> c != Text(metadata[k].0)) ==>
                  Cell(r.rows[i], c) == Cell(df.rows[i], c))
            && (forall k :: 0 <= k < |metadata| ==> Text(metadata[k].0) in r.columns)
            && (forall c :: c in df.columns ==> c in r.columns)
  {
    if metadata != [] {
      var n := |metadata| - 1;
      var p := metadata[..n];
      assert DistinctKeys(p);
      MetadataAttached(df, p);
      var prev := WithMetadata(df, p);
      var r := WithMetadata(df, metadata);
      assert r == AddColumn(prev, Text(metadata[n].0), metadata[n].1);
      forall i, k | 0 <= i < |r.rows| && 0 <= k < |metadata|
        ensures Cell(r.rows[i], Text(metadata[k].0)) == metadata[k].1
      {
        if k < n {
          assert p[k] == metadata[k];
          assert metadata[k].0 != metadata[n].0;
        }
      }
      forall i, c | 0 <= i < |r.rows| && (forall k :: 0 <= k < |metadata| ==> c != Text(metadata[k].0))
        ensures Cell(r.rows[i], c) == Cell(df.rows[i], c)
      {
        assert forall k :: 0 <= k < |p| ==> p[k] == metadata[k];
        assert c != Text(metadata[n].0);
      }
      assert forall k :: 0 <= k < |p| ==> p[k] == metadata[k];
    }
  }

  /** `process_single_row`: appends one row per scalar and one per vector
      element, in order. */
  method ProcessSingleRow(entityId: string, obs: ObsDict, indexName: string, rsn: Datum) returns (rows: seq<Row>)
    ensures rows == SingleRows(entityId, obs, indexName, rsn)
  {
    rows := [];
    var i := 0;
    while i < |obs|
      invariant 0 <= i <= |obs|
      invariant rows == SingleRows(entityId, obs[..i], indexName, rsn)
    {
      var (obsName, value) := obs[i];
      assert obs[..i + 1][..i] == obs[..i];
      match value {
        case Scalar(x) =>
          rows := rows + [MakeRow(entityId, obsName, indexName, Null, x, rsn)];
        case Vector(xs) =>
          rows := AppendVectorRows(rows, entityId, obsName, xs, indexName, rsn);
      }
      i := i + 1;
    }
    assert obs[..i] == obs;
  }

  /** The inner loop of `process_single_row` over a vector's elements. */
  method AppendVectorRows(rows0: seq<Row>, entityId: string, obsName: string, xs: seq<Datum>, indexName: string, rsn: Datum)
    returns (rows: seq<Row>)
    ensures rows == rows0 + ObsRows(entityId, obsName, Vector(xs), indexName, rsn)
  {
    ghost var all := ObsRows(entityId, obsName, Vector(xs), indexName, rsn);
    rows := rows0;
    var idx := 0;
    while idx < |xs|
      invariant 0 <= idx <= |xs|
      invariant rows == rows0 + all[..idx]
    {
      assert all[..idx + 1] == all[..idx] + [all[idx]];
      rows := rows + [MakeRow(entityId, obsName, indexName, Int(idx), xs[idx], rsn)];
      idx := idx + 1;
    }
    assert all[..idx] == all;
  }

  /** `observables_to_long_dataframe`: the rows of every dict (one dict
      when `use_RSN` is false), then one column per metadata entry. */
  method ObservablesToLong(entityId: string, data: ObsInput, metadata: seq<(string, Datum)>, indexName: string)
    returns (df: Frame)
    ensures df == LongFrame(entityId, data, metadata, indexName)
  {
    var dicts := AsDictIter(data);
    var rows: seq<Row> := [];
    var k := 0;
    while k < |dicts|
      invariant 0 <= k <= |dicts|
      invariant rows == LongRows(entityId, dicts[..k], indexName)
    {
      var part := ProcessSingleRow(entityId, dicts[k].1, indexName, RsnOf(dicts[k].0));
      LongRowsStep(entityId, dicts, k, indexName);
      rows := rows + part;
      k := k + 1;
    }
    assert dicts[..k] == dicts;
    df := Frame(if rows == [] then [] else LongColumns(indexName), rows);
    ghost var base := df;
    var j := 0;
    while j < |metadata|
      invariant 0 <= j <= |metadata|
      invariant df == WithMetadata(base, metadata[..j])
    {
      assert metadata[..j + 1][..j] == metadata[..j];
      df := AddColumn(df, Text(metadata[j].0), metadata[j].1);
      j := j + 1;
    }
    assert metadata[..j] == metadata;
  }

  // ---------------------------------------------------------------------
  // `build_long_dataframe_from_entities`

  /** `pd.concat` of no frames raises. */
  datatype BuildError = NoObjectsToConcatenate

  /** `pd.concat(dfs, ignore_index=True)`: the union of the columns in order
      of first appearance and the rows one frame after another. */
  function Concat(dfs: seq<Frame>): (r: Frame)
    ensures forall c :: c in r.columns <==> exists k :: 0 <= k < |dfs| && c in dfs[k].columns
  {
    Frame(Dedup(AllColumns(dfs)), AllRows(dfs))
  }

  function AllColumns(dfs: seq<Frame>): (r: seq<Datum>)
    ensures forall c :: c in r <==> exists k :: 0 <= k < |dfs| && c in dfs[k].columns
  {
    if dfs == [] then []
    else
      var n := |dfs| - 1;
      var p := AllColumns(dfs[..n]);
      assert forall k :: 0 <= k < n ==> dfs[..n][k] == dfs[k];
      p + dfs[n].columns
  }

  function AllRows(dfs: seq<Frame>): seq<Row>
  {
    Flatten(seq(|dfs|, i requires 0 <= i < |dfs| => dfs[i].rows))
  }

  /** Concatenation keeps the frames' order: the rows of a split list of
      frames are the rows of the first part followed by the second. */
  lemma AllRowsAppend(a: seq<Frame>, b: seq<Frame>)
    ensures AllRows(a + b) == AllRows(a) + AllRows(b)
  {
    var ra := seq(|a|, i requires 0 <= i < |a| => a[i].rows);
    var rb := seq(|b|, i requires 0 <= i < |b| => b[i].rows);
    assert seq(|a + b|, i requires 0 <= i < |a + b| => (a + b)[i].rows) == ra + rb;
    FlattenAppend(ra, rb);
  }

  lemma AllRowsSingle(f: Frame)
    ensures AllRows([f]) == f.rows
  {
    var r := seq(1, i requires 0 <= i < 1 => [f][i].rows);
    assert r == [f.rows];
    assert r[..0] == [];
    assert Flatten(r) == Flatten(r[..0]) + r[0];
  }

  /** The per-entity frames the loop collects. */
  function EntityFrames(ids: seq<string>, loader: string -> ObsInput, metaLoader: Option<string -> seq<(string, Datum)>>, indexName: string): (r: seq<Frame>)
    ensures |r| == |ids|
  {
    seq(|ids|, i requires 0 <= i < |ids| => EntityFrame(ids[i], loader, metaLoader, indexName))
  }

  /** The long frame of one entity, with its metadata when there is a
      metadata loader. */
  function EntityFrame(id: string, loader: string -> ObsInput, metaLoader: Option<string -> seq<(string, Datum)>>, indexName: string): Frame
  {
    LongFrame(id, loader(id), if metaLoader.Some? then metaLoader.value(id) else [], indexName)
  }

  lemma EntityFramesStep(ids: seq<string>, i: nat, loader: string -> ObsInput, metaLoader: Option<string -> seq<(string, Datum)>>, indexName: string)
    requires i < |ids|
    ensures EntityFrames(ids[..i + 1], loader, metaLoader, indexName)
            == EntityFrames(ids[..i], loader, metaLoader, indexName)
               + [EntityFrame(ids[i], loader, metaLoader, indexName)]
  {
    var l := EntityFrames(ids[..i + 1], loader, metaLoader, indexName);
    var r := EntityFrames(ids[..i], loader, metaLoader, indexName) + [EntityFrame(ids[i], loader, metaLoader, indexName)];
    assert |l| == |r|;
    forall k | 0 <= k < |l| ensures l[k] == r[k] {
      assert ids[..i + 1][k] == if k < i then ids[..i][k] else ids[i];
    }
  }

  /** The result of `build_long_dataframe_from_entities`. */
  function BuildLong(ids: seq<string>, loader: string -> ObsInput, metaLoader: Option<string -> seq<(string, Datum)>>, indexName: string): Result<Frame, BuildError>
  {
    if ids == [] then Err(NoObjectsToConcatenate)
    else Ok(Concat(EntityFrames(ids, loader, metaLoader, indexName)))
  }

  /** `build_long_dataframe_from_entities`: one long frame per entity, in
      the order of `ids`, then concatenated. */
  method BuildLongDataframe(ids: seq<string>, loader: string -> ObsInput, metaLoader: Option<string -> seq<(string, Datum)>>, indexName: string)
    returns (r: Result<Frame, BuildError>)
    ensures r == BuildLong(ids, loader, metaLoader, indexName)
  {
    var dfs: seq<Frame> := [];
    var i := 0;
    while i < |ids|
      invariant 0 <= i <= |ids|
      invariant dfs == EntityFrames(ids[..i], loader, metaLoader, indexName)
    {
      var eid := ids[i];
      var observables := loader(eid);
      var metadata := if metaLoader.Some? then metaLoader.value(eid) else [];
      var df := ObservablesToLong(eid, observables, metadata, indexName);
      EntityFramesStep(ids, i, loader, metaLoader, indexName);
      assert df == EntityFrame(eid, loader, metaLoader, indexName);
      dfs := dfs + [df];
      i := i + 1;
    }
    assert ids[..i] == ids;
    if dfs == [] {
      return Err(NoObjectsToConcatenate);
    }
    r := Ok(Concat(dfs));
  }

  /** Every row of an entity's frame carries that entity's id, when
      neither the index name nor a metadata key is `id`. */
  lemma EntityRowsHaveId(entityId: string, data: ObsInput, metadata: seq<(string, Datum)>, indexName: string)
    requires IndexNameFree(indexName)
    requires DistinctKeys(metadata) && forall k :: 0 <= k < |metadata| ==> metadata[k].0 != "id"
    ensures forall r :: r in LongFrame(entityId, data, metadata, indexName).rows ==> Cell(r, Text("id")) == Text(entityId)
  {
    var dicts := AsDictIter(data);
    var rows := LongRows(entityId, dicts, indexName);
    LongRowsLabels(entityId, dicts, indexName);
    var base := Frame(if rows == [] then [] else LongColumns(indexName), rows);
    MetadataAttached(base, metadata);
    var r := LongFrame(entityId, data, metadata, indexName);
    forall x | x in r.rows ensures Cell(x, Text("id")) == Text(entityId) {
      var i :| 0 <= i < |r.rows| && r.rows[i] == x;
      assert base.rows[i] in rows;
    }
  }

  lemma {:induction false} LongRowsLabels(entityId: string, dicts: seq<(Option<string>, ObsDict)>, indexName: string)
    requires IndexNameFree(indexName)
    ensures forall r :: r in LongRows(entityId, dicts, indexName) ==> Cell(r, Text("id")) == Text(entityId)
  {
    if dicts != [] {
      var n := |dicts| - 1;
      LongRowsLabels(entityId, dicts[..n], indexName);
      SingleRowsLabels(entityId, dicts[n].1, indexName, RsnOf(dicts[n].0));
      LongRowsStep(entityId, dicts, n, indexName);
      assert dicts[..n + 1] == dicts;
    }
  }

  /** The frames are concatenated in the order of `ids`: the rows of the
      k-th entity come after those of the entities before it and before
      those of the entities after it. */
  lemma BuildLongInOrder(ids: seq<string>, loader: string -> ObsInput, metaLoader: Option<string -> seq<(string, Datum)>>, indexName: string, k: nat)
    requires k < |ids|
    ensures BuildLong(ids, loader, metaLoader, indexName).Ok?
    ensures BuildLong(ids, loader, metaLoader, indexName).value.rows
            == AllRows(EntityFrames(ids[..k], loader, metaLoader, indexName))
               + EntityFrame(ids[k], loader, metaLoader, indexName).rows
               + AllRows(EntityFrames(ids[k + 1..], loader, metaLoader, indexName))
  {
    var fs := EntityFrames(ids, loader, metaLoader, indexName);
    BuildLongRows(ids, loader, metaLoader, indexName);
    SplitRows(ids, loader, metaLoader, indexName, k);
  }

  lemma BuildLongRows(ids: seq<string>, loader: string -> ObsInput, metaLoader: Option<string -> seq<(string, Datum)>>, indexName: string)
    requires ids != []
    ensures BuildLong(ids, loader, metaLoader, indexName) == Ok(Concat(EntityFrames(ids, loader, metaLoader, indexName)))
    ensures Concat(EntityFrames(ids, loader, metaLoader, indexName)).rows == AllRows(EntityFrames(ids, loader, metaLoader, indexName))
  {
  }

  lemma SplitRows(ids: seq<string>, loader: string -> ObsInput, metaLoader: Option<string -> seq<(string, Datum)>>, indexName: string, k: nat)
    requires k < |ids|
    ensures AllRows(EntityFrames(ids, loader, metaLoader, indexName))
            == AllRows(EntityFrames(ids[..k], loader, metaLoader, indexName))
               + EntityFrame(ids[k], loader, metaLoader, indexName).rows
               + AllRows(EntityFrames(ids[k + 1..], loader, metaLoader, indexName))
  {
    var fs := EntityFrames(ids, loader, metaLoader, indexName);
    EntityFramesPrefix(ids, k, loader, metaLoader, indexName);
    EntityFramesSuffix(ids, k + 1, loader, metaLoader, indexName);
    assert fs[k] == EntityFrame(ids[k], loader, metaLoader, indexName);
    AllRowsSplit(fs, k);
  }

  lemma EntityFramesPrefix(ids: seq<string>, k: nat, loader: string -> ObsInput, metaLoader: Option<string -> seq<(string, Datum)>>, indexName: string)
    requires k <= |ids|
    ensures EntityFrames(ids[..k], loader, metaLoader, indexName) == EntityFrames(ids, loader, metaLoader, indexName)[..k]
  {
  }

  lemma EntityFramesSuffix(ids: seq<string>, k: nat, loader: string -> ObsInput, metaLoader: Option<string -> seq<(string, Datum)>>, indexName: string)
    requires k <= |ids|
    ensures EntityFrames(ids[k..], loader, metaLoader, indexName) == EntityFrames(ids, loader, metaLoader, indexName)[k..]
  {
  }

  lemma AllRowsSplit(fs: seq<Frame>, k: nat)
    requires k < |fs|
    ensures AllRows(fs) == AllRows(fs[..k]) + fs[k].rows + AllRows(fs[k + 1..])
  {
    assert fs == fs[..k] + [fs[k]] + fs[k + 1..];
    AllRowsAppend(fs[..k] + [fs[k]], fs[k + 1..]);
    AllRowsAppend(fs[..k], [fs[k]]);
    AllRowsSingle(fs[k]);
  }

  // ---------------------------------------------------------------------
  // `long_to_wide`

  /** What the pivot and the flattening raise. */
  datatype ReshapeError = MissingColumn(col: Datum) | NonNumericValue

  predicate NoNull(k: seq<Datum>)
  {
    forall i :: 0 <= i < |k| ==> k[i] != Null
  }

  /** A row the pivot aggregates: one of the label's rows whose index
      cells, column cell and value are all present (`groupby` drops a
      null key, and a group of missing values is dropped). */
  predicate Usable(r: Row, obsLabel: string, observableCol: Datum, keyCols: seq<Datum>, columnsName: Datum, valuesName: Datum)
  {
    Cell(r, observableCol) == Text(obsLabel) && NoNull(KeyOf(r, keyCols))
    && Cell(r, columnsName) != Null && Cell(r, valuesName) != Null
  }

  function UsableRows(df: Frame, obsLabel: string, observableCol: Datum, keyCols: seq<Datum>, columnsName: Datum, valuesName: Datum): seq<Row>
  {
    FilterRows(df.rows, r => Usable(r, obsLabel, observableCol, keyCols, columnsName, valuesName))
  }

  /** The values of the rows with the given index key and column key, in
      order. */
  function Matching(rows: seq<Row>, keyCols: seq<Datum>, key: seq<Datum>, columnsName: Datum, p: Datum, valuesName: Datum): (vs: seq<real>)
    ensures forall x :: x in vs <==>
              exists r :: r in rows && KeyOf(r, keyCols) == key && Cell(r, columnsName) == p && NumValue(Cell(r, valuesName)) == x
  {
    if rows == [] then []
    else
      var n := |rows| - 1;
      var prev := Matching(rows[..n], keyCols, key, columnsName, p, valuesName);
      assert rows == rows[..n] + [rows[n]];
      if KeyOf(rows[n], keyCols) == key && Cell(rows[n], columnsName) == p
      then prev + [NumValue(Cell(rows[n], valuesName))]
      else prev
  }

  /** `aggfunc='mean'`, with NaN where no row gives the cell. */
  function Aggregate(vs: seq<real>): Datum
  {
    if vs == [] then Null else Real(Mean(vs))
  }

  /** The index cells `reset_index` writes back: column `cols[i]` holds
      `key[i]`. */
  function KeyMap(cols: seq<Datum>, key: seq<Datum>): (m: Row)
    requires |cols| == |key|
    ensures m.Keys == set c | c in cols
    ensures Distinct(cols) ==> forall i :: 0 <= i < |cols| ==> m[cols[i]] == key[i]
  {
    if cols == [] then map[]
    else
      var n := |cols| - 1;
      var prev := KeyMap(cols[..n], key[..n]);
      assert Distinct(cols) ==> Distinct(cols[..n]) && cols[n] !in cols[..n];
      prev[cols[n] := key[n]]
  }

  /** One row of the wide table: the index cells and one aggregated cell
      per distinct column key. */
  function WideRow(usable: seq<Row>, keyCols: seq<Datum>, key: seq<Datum>, parcels: seq<Datum>, columnsName: Datum, valuesName: Datum): Row
    requires |key| == |keyCols|
  {
    (map p | p in parcels :: Aggregate(Matching(usable, keyCols, key, columnsName, p, valuesName))) + KeyMap(keyCols, key)
  }

  /** The distinct index keys in order of first appearance. */
  function Keys(usable: seq<Row>, keyCols: seq<Datum>): (ks: seq<seq<Datum>>)
    ensures Distinct(ks)
    ensures forall k :: k in ks ==> |k| == |keyCols|
    ensures forall k :: k in ks <==> exists i :: 0 <= i < |usable| && KeyOf(usable[i], keyCols) == k
  {
    var all := seq(|usable|, i requires 0 <= i < |usable| => KeyOf(usable[i], keyCols));
    assert forall k :: k in all <==> exists i :: 0 <= i < |usable| && KeyOf(usable[i], keyCols) == k by {
      forall k | k in all ensures exists i :: 0 <= i < |usable| && KeyOf(usable[i], keyCols) == k {
        var i :| 0 <= i < |all| && all[i] == k;
      }
      forall k | exists i :: 0 <= i < |usable| && KeyOf(usable[i], keyCols) == k ensures k in all {
        var i :| 0 <= i < |usable| && KeyOf(usable[i], keyCols) == k;
        assert all[i] == k;
      }
    }
    Dedup(all)
  }

  /** The distinct column keys in order of first appearance. */
  function ColumnKeys(usable: seq<Row>, columnsName: Datum): (ps: seq<Datum>)
    ensures Distinct(ps)
    ensures forall p :: p in ps <==> exists r :: r in usable && Cell(r, columnsName) == p
  {
    var all := seq(|usable|, i requires 0 <= i < |usable| => Cell(usable[i], columnsName));
    assert forall p :: p in all <==> exists r :: r in usable && Cell(r, columnsName) == p by {
      forall p | p in all ensures exists r :: r in usable && Cell(r, columnsName) == p {
        var i :| 0 <= i < |all| && all[i] == p;
        assert usable[i] in usable;
      }
      forall p | exists r :: r in usable && Cell(r, columnsName) == p ensures p in all {
        var r :| r in usable && Cell(r, columnsName) == p;
        var i :| 0 <= i < |usable| && usable[i] == r;
        assert all[i] == p;
      }
    }
    Dedup(all)
  }

  /** The pivot of the usable rows. */
  function Pivot(usable: seq<Row>, keyCols: seq<Datum>, columnsName: Datum, valuesName: Datum): (w: Frame)
    ensures |w.rows| == |Keys(usable, keyCols)|
  {
    var keys := Keys(usable, keyCols);
    var parcels := ColumnKeys(usable, columnsName);
    Frame(keyCols + parcels,
          seq(|keys|, i requires 0 <= i < |keys| => WideRow(usable, keyCols, keys[i], parcels, columnsName, valuesName)))
  }

  /** `long_to_wide`: the rows of observable `obsLabel` pivoted to one row per
      distinct `[id_col] + metadata` key and one column per distinct
      `columns_name` value, each cell the mean of its values. Rows and
      columns are in order of first appearance. */
  function LongToWide(df: Frame, obsLabel: string, metadata: seq<Datum>, idCol: Datum, columnsName: Datum, valuesName: Datum, observableCol: Datum)
    : (r: Result<Frame, ReshapeError>)
    ensures r.Err? <==>
              || (exists c :: c in [observableCol, valuesName] + ([idCol] + metadata) + [columnsName] && c !in df.columns)
              || (exists x :: x in UsableRows(df, obsLabel, observableCol, [idCol] + metadata, columnsName, valuesName)
                               && Cell(x, valuesName).Text?)
    ensures r.Ok? ==>
              var usable := UsableRows(df, obsLabel, observableCol, [idCol] + metadata, columnsName, valuesName);
              && r.value.columns == [idCol] + metadata + ColumnKeys(usable, columnsName)
              && |r.value.rows| == |Keys(usable, [idCol] + metadata)|
  {
    var keyCols := [idCol] + metadata;
    var missing := FirstMissing([observableCol, valuesName] + keyCols + [columnsName], df.columns);
    if missing.Some? then Err(MissingColumn(missing.value))
    else
      var usable := UsableRows(df, obsLabel, observableCol, keyCols, columnsName, valuesName);
      if exists r :: r in usable && Cell(r, valuesName).Text? then Err(NonNumericValue)
      else Ok(Pivot(usable, keyCols, columnsName, valuesName))
  }

  /** Row i of the pivot holds the i-th distinct key in its index cells. */
  lemma PivotRowKey(usable: seq<Row>, keyCols: seq<Datum>, columnsName: Datum, valuesName: Datum, i: nat)
    requires Distinct(keyCols)
    requires i < |Pivot(usable, keyCols, columnsName, valuesName).rows|
    ensures KeyOf(Pivot(usable, keyCols, columnsName, valuesName).rows[i], keyCols) == Keys(usable, keyCols)[i]
  {
    var keys := Keys(usable, keyCols);
    assert keys[i] in keys;
    WideRowKey(usable, keyCols, keys[i], ColumnKeys(usable, columnsName), columnsName, valuesName);
  }

  /** Every usable row's key has a row in the pivot ... */
  lemma PivotCovers(usable: seq<Row>, keyCols: seq<Datum>, columnsName: Datum, valuesName: Datum, r: Row)
    requires Distinct(keyCols) && r in usable
    ensures exists i :: 0 <= i < |Pivot(usable, keyCols, columnsName, valuesName).rows|
                        && KeyOf(Pivot(usable, keyCols, columnsName, valuesName).rows[i], keyCols) == KeyOf(r, keyCols)
  {
    var keys := Keys(usable, keyCols);
    var k :| 0 <= k < |usable| && usable[k] == r;
    assert KeyOf(usable[k], keyCols) == KeyOf(r, keyCols);
    assert KeyOf(r, keyCols) in keys;
    var i :| 0 <= i < |keys| && keys[i] == KeyOf(r, keyCols);
    PivotRowKey(usable, keyCols, columnsName, valuesName, i);
  }

  /** ... every pivot row comes from a usable row ... */
  lemma PivotFrom(usable: seq<Row>, keyCols: seq<Datum>, columnsName: Datum, valuesName: Datum, i: nat)
    requires Distinct(keyCols) && i < |Pivot(usable, keyCols, columnsName, valuesName).rows|
    ensures exists r :: r in usable && KeyOf(Pivot(usable, keyCols, columnsName, valuesName).rows[i], keyCols) == KeyOf(r, keyCols)
  {
    var keys := Keys(usable, keyCols);
    PivotRowKey(usable, keyCols, columnsName, valuesName, i);
    assert keys[i] in keys;
    var k :| 0 <= k < |usable| && KeyOf(usable[k], keyCols) == keys[i];
    assert usable[k] in usable;
  }

  /** ... and no two pivot rows share a key. */
  lemma PivotDistinct(usable: seq<Row>, keyCols: seq<Datum>, columnsName: Datum, valuesName: Datum, i: nat, j: nat)
    requires Distinct(keyCols) && i < j < |Pivot(usable, keyCols, columnsName, valuesName).rows|
    ensures KeyOf(Pivot(usable, keyCols, columnsName, valuesName).rows[i], keyCols)
            != KeyOf(Pivot(usable, keyCols, columnsName, valuesName).rows[j], keyCols)
  {
    PivotRowKey(usable, keyCols, columnsName, valuesName, i);
    PivotRowKey(usable, keyCols, columnsName, valuesName, j);
  }

  /** Under each column key that is not an index column, the pivot cell
      is the mean of the values of the rows with both keys, or NaN when
      there are none. */
  lemma PivotCell(usable: seq<Row>, keyCols: seq<Datum>, columnsName: Datum, valuesName: Datum, i: nat, p: Datum)
    requires Distinct(keyCols)
    requires i < |Pivot(usable, keyCols, columnsName, valuesName).rows|
    requires p in ColumnKeys(usable, columnsName) && p !in keyCols
    ensures var row := Pivot(usable, keyCols, columnsName, valuesName).rows[i];
            Cell(row, p) == Aggregate(Matching(usable, keyCols, KeyOf(row, keyCols), columnsName, p, valuesName))
  {
    var keys := Keys(usable, keyCols);
    assert keys[i] in keys;
    PivotRowKey(usable, keyCols, columnsName, valuesName, i);
    WideRowCell(usable, keyCols, keys[i], ColumnKeys(usable, columnsName), columnsName, valuesName, p);
  }

  lemma WideRowKey(usable: seq<Row>, keyCols: seq<Datum>, key: seq<Datum>, parcels: seq<Datum>, columnsName: Datum, valuesName: Datum)
    requires |key| == |keyCols| && Distinct(keyCols)
    ensures KeyOf(WideRow(usable, keyCols, key, parcels, columnsName, valuesName), keyCols) == key
  {
    var w := WideRow(usable, keyCols, key, parcels, columnsName, valuesName);
    var km := KeyMap(keyCols, key);
    forall i | 0 <= i < |keyCols| ensures Cell(w, keyCols[i]) == key[i] {
      assert keyCols[i] in km.Keys;
    }
  }

  lemma WideRowCell(usable: seq<Row>, keyCols: seq<Datum>, key: seq<Datum>, parcels: seq<Datum>, columnsName: Datum, valuesName: Datum, p: Datum)
    requires |key| == |keyCols| && p in parcels && p !in keyCols
    ensures Cell(WideRow(usable, keyCols, key, parcels, columnsName, valuesName), p)
            == Aggregate(Matching(usable, keyCols, key, columnsName, p, valuesName))
  {
    assert p !in KeyMap(keyCols, key).Keys;
  }

  // ---------------------------------------------------------------------
  // `wide_to_long`

  /** The column labels of the long records: `entity_col`, `index_col`,
      `observable_col` and `value_col`. */
  datatype LongNames = LongNames(entity: Datum, index: Datum, observable: Datum, value: Datum)

  /** The columns that become records: all but the entity column and the
      metadata columns, in order. */
  function Features(columns: seq<Datum>, entityCol: Datum, metadata: seq<Datum>): (fs: seq<Datum>)
    ensures forall c :: c in fs <==> c in columns && c != entityCol && c !in metadata
  {
    if columns == [] then []
    else
      var n := |columns| - 1;
      var c := columns[n];
      assert columns == columns[..n] + [c];
      Features(columns[..n], entityCol, metadata) + (if c != entityCol && c !in metadata then [c] else [])
  }

  /** `{m: row[m] for m in metadata}`. */
  function MetaOf(row: Row, metadata: seq<Datum>): Row
  {
    map m | m in metadata :: Cell(row, m)
  }

  /** The record for one wide cell: the dict literal, then the metadata
      cells, which win on a clash. */
  function Record(entityId: Datum, row: Row, col: Datum, names: LongNames, obsName: string, metadata: seq<Datum>): Row
  {
    map[names.entity := entityId][names.observable := Text(obsName)][names.index := col][names.value := Cell(row, col)]
    + MetaOf(row, metadata)
  }

  function RowRecords(row: Row, feats: seq<Datum>, names: LongNames, obsName: string, metadata: seq<Datum>): (rs: seq<Row>)
    ensures |rs| == |feats|
  {
    seq(|feats|, j requires 0 <= j < |feats| => Record(Cell(row, names.entity), row, feats[j], names, obsName, metadata))
  }

  function Records(rows: seq<Row>, feats: seq<Datum>, names: LongNames, obsName: string, metadata: seq<Datum>): seq<Row>
  {
    Flatten(RecordBlocks(rows, feats, names, obsName, metadata))
  }

  function RecordBlocks(rows: seq<Row>, feats: seq<Datum>, names: LongNames, obsName: string, metadata: seq<Datum>): (bs: seq<seq<Row>>)
    ensures |bs| == |rows|
  {
    seq(|rows|, i requires 0 <= i < |rows| => RowRecords(rows[i], feats, names, obsName, metadata))
  }

  /** The result of `wide_to_long`: `KeyError` on the entity column when
      there is a row, and on a missing metadata column as soon as a
      record is built; otherwise one record per (row, feature column). */
  function WideToLongResult(df: Frame, names: LongNames, metadata: seq<Datum>, obsName: string): Result<Frame, ReshapeError>
  {
    var feats := Features(df.columns, names.entity, metadata);
    var missing := FirstMissing(metadata, df.columns);
    if df.rows != [] && names.entity !in df.columns then Err(MissingColumn(names.entity))
    else if df.rows != [] && feats != [] && missing.Some? then Err(MissingColumn(missing.value))
    else
      var recs := Records(df.rows, feats, names, obsName, metadata);
      Ok(Frame(if recs == [] then [] else Dedup([names.entity, names.observable, names.index, names.value] + metadata), recs))
  }

  lemma FeaturesStep(columns: seq<Datum>, entityCol: Datum, metadata: seq<Datum>, j: nat)
    requires j < |columns|
    ensures Features(columns[..j + 1], entityCol, metadata)
            == Features(columns[..j], entityCol, metadata)
               + (if columns[j] != entityCol && columns[j] !in metadata then [columns[j]] else [])
  {
    assert columns[..j + 1][..j] == columns[..j];
  }

  lemma RecordsStep(rows: seq<Row>, i: nat, feats: seq<Datum>, names: LongNames, obsName: string, metadata: seq<Datum>)
    requires i < |rows|
    ensures Records(rows[..i + 1], feats, names, obsName, metadata)
            == Records(rows[..i], feats, names, obsName, metadata) + RowRecords(rows[i], feats, names, obsName, metadata)
  {
    var b := RecordBlocks(rows[..i + 1], feats, names, obsName, metadata);
    assert b[..i] == RecordBlocks(rows[..i], feats, names, obsName, metadata);
  }

  /** The records one row gives, or the `KeyError` of its metadata
      lookup. */
  function RowResult(row: Row, columns: seq<Datum>, names: LongNames, obsName: string, metadata: seq<Datum>): Result<seq<Row>, ReshapeError>
  {
    var feats := Features(columns, names.entity, metadata);
    var missing := FirstMissing(metadata, columns);
    if feats != [] && missing.Some? then Err(MissingColumn(missing.value))
    else Ok(RowRecords(row, feats, names, obsName, metadata))
  }

  lemma RowRecordsSnoc(row: Row, feats: seq<Datum>, col: Datum, names: LongNames, obsName: string, metadata: seq<Datum>)
    ensures RowRecords(row, feats + [col], names, obsName, metadata)
            == RowRecords(row, feats, names, obsName, metadata) + [Record(Cell(row, names.entity), row, col, names, obsName, metadata)]
  {
  }

  /** The inner loop of `wide_to_long` over one row's columns. */
  method RowToRecords(row: Row, columns: seq<Datum>, names: LongNames, obsName: string, metadata: seq<Datum>)
    returns (res: Result<seq<Row>, ReshapeError>)
    ensures res == RowResult(row, columns, names, obsName, metadata)
  {
    var entityId := Cell(row, names.entity);
    var recs: seq<Row> := [];
    var j := 0;
    while j < |columns|
      invariant 0 <= j <= |columns|
      invariant Features(columns[..j], names.entity, metadata) != [] ==> FirstMissing(metadata, columns).None?
      invariant recs == RowRecords(row, Features(columns[..j], names.entity, metadata), names, obsName, metadata)
    {
      var col := columns[j];
      FeaturesStep(columns, names.entity, metadata, j);
      ghost var done := Features(columns[..j], names.entity, metadata);
      if col != names.entity && col !in metadata {
        var missing := FirstMissing(metadata, columns);
        if missing.Some? {
          assert col in Features(columns, names.entity, metadata);
          return Err(MissingColumn(missing.value));
        }
        RowRecordsSnoc(row, done, col, names, obsName, metadata);
        recs := recs + [Record(entityId, row, col, names, obsName, metadata)];
      }
      j := j + 1;
    }
    assert columns[..j] == columns;
    res := Ok(recs);
  }

  /** `wide_to_long`: for every row, every column other than the entity
      and metadata columns becomes one record. */
  method WideToLong(df: Frame, names: LongNames, metadata: seq<Datum>, obsName: string) returns (r: Result<Frame, ReshapeError>)
    ensures r == WideToLongResult(df, names, metadata, obsName)
  {
    ghost var feats := Features(df.columns, names.entity, metadata);
    var rows: seq<Row> := [];
    var i := 0;
    while i < |df.rows|
      invariant 0 <= i <= |df.rows|
      invariant i > 0 ==> names.entity in df.columns
      invariant i > 0 && feats != [] ==> FirstMissing(metadata, df.columns).None?
      invariant rows == Records(df.rows[..i], feats, names, obsName, metadata)
    {
      if names.entity !in df.columns {
        return Err(MissingColumn(names.entity));
      }
      var recs := RowToRecords(df.rows[i], df.columns, names, obsName, metadata);
      if recs.Err? {
        return Err(recs.error);
      }
      RecordsStep(df.rows, i, feats, names, obsName, metadata);
      rows := rows + recs.value;
      i := i + 1;
    }
    assert df.rows[..i] == df.rows;
    var cols := if rows == [] then [] else Dedup([names.entity, names.observable, names.index, names.value] + metadata);
    r := Ok(Frame(cols, rows));
  }

  /** `out` lists the records of `rows` row by row: the record of row i
      and feature j sits at i * |feats| + j. */
  predicate RowMajor(out: seq<Row>, rows: seq<Row>, feats: seq<Datum>, names: LongNames, obsName: string, metadata: seq<Datum>)
  {
    && |out| == |rows| * |feats|
    && forall i, j :: 0 <= i < |rows| && 0 <= j < |feats| ==>
         i * |feats| + j < |out|
         && out[i * |feats| + j] == Record(Cell(rows[i], names.entity), rows[i], feats[j], names, obsName, metadata)
  }

  lemma RecordsLayout(rows: seq<Row>, feats: seq<Datum>, names: LongNames, obsName: string, metadata: seq<Datum>)
    ensures RowMajor(Records(rows, feats, names, obsName, metadata), rows, feats, names, obsName, metadata)
  {
    RecordBlocksCells(rows, feats, names, obsName, metadata);
    FlattenRowMajor(RecordBlocks(rows, feats, names, obsName, metadata), rows, feats, names, obsName, metadata);
  }

  lemma FlattenRowMajor(b: seq<seq<Row>>, rows: seq<Row>, feats: seq<Datum>, names: LongNames, obsName: string, metadata: seq<Datum>)
    requires |b| == |rows|
    requires forall i :: 0 <= i < |b| ==> |b[i]| == |feats|
    requires forall i, j :: 0 <= i < |b| && 0 <= j < |feats| ==>
               b[i][j] == Record(Cell(rows[i], names.entity), rows[i], feats[j], names, obsName, metadata)
    ensures RowMajor(Flatten(b), rows, feats, names, obsName, metadata)
  {
    FlattenUniform(b, |feats|);
  }

  lemma RecordBlocksCells(rows: seq<Row>, feats: seq<Datum>, names: LongNames, obsName: string, metadata: seq<Datum>)
    ensures var b := RecordBlocks(rows, feats, names, obsName, metadata);
            && (forall i :: 0 <= i < |b| ==> |b[i]| == |feats|)
            && (forall i, j :: 0 <= i < |b| && 0 <= j < |feats| ==>
                  b[i][j] == Record(Cell(rows[i], names.entity), rows[i], feats[j], names, obsName, metadata))
  {
  }

  /** Output length is rows times feature columns, and the record for row
      i and feature column j sits at position i * |features| + j. */
  lemma WideToLongLayout(df: Frame, names: LongNames, metadata: seq<Datum>, obsName: string)
    requires WideToLongResult(df, names, metadata, obsName).Ok?
    ensures RowMajor(WideToLongResult(df, names, metadata, obsName).value.rows, df.rows,
                     Features(df.columns, names.entity, metadata), names, obsName, metadata)
  {
    WideToLongRows(df, names, metadata, obsName);
    RecordsLayout(df.rows, Features(df.columns, names.entity, metadata), names, obsName, metadata);
  }

  lemma WideToLongRows(df: Frame, names: LongNames, metadata: seq<Datum>, obsName: string)
    requires WideToLongResult(df, names, metadata, obsName).Ok?
    ensures WideToLongResult(df, names, metadata, obsName).value.rows
            == Records(df.rows, Features(df.columns, names.entity, metadata), names, obsName, metadata)
  {
  }

  /** The labels of a long record are pairwise distinct. */
  predicate DistinctNames(names: LongNames, metadata: seq<Datum>)
  {
    Distinct([names.entity, names.observable, names.index, names.value] + metadata)
  }

  /** What a record holds: the row's entity, the observable name, the
      feature column as index, that column's cell as value, and the row's
      metadata cells. */
  lemma RecordFields(entityId: Datum, row: Row, col: Datum, names: LongNames, obsName: string, metadata: seq<Datum>)
    requires DistinctNames(names, metadata)
    ensures var rec := Record(entityId, row, col, names, obsName, metadata);
            && Cell(rec, names.entity) == entityId
            && Cell(rec, names.observable) == Text(obsName)
            && Cell(rec, names.index) == col
            && Cell(rec, names.value) == Cell(row, col)
            && forall k :: 0 <= k < |metadata| ==> Cell(rec, metadata[k]) == Cell(row, metadata[k])
  {
    NamesApart(names, metadata);
    var head := map[names.entity := entityId][names.observable := Text(obsName)][names.index := col][names.value := Cell(row, col)];
    var rec := Record(entityId, row, col, names, obsName, metadata);
    assert rec == head + MetaOf(row, metadata);
    forall k | 0 <= k < |metadata| ensures Cell(rec, metadata[k]) == Cell(row, metadata[k]) {
      assert metadata[k] in MetaOf(row, metadata);
    }
  }

  /** Under DistinctNames the four record labels differ from each other
      and from every metadata column. */
  lemma NamesApart(names: LongNames, metadata: seq<Datum>)
    requires DistinctNames(names, metadata)
    ensures names.entity != names.observable && names.entity != names.index && names.entity != names.value
    ensures names.observable != names.index && names.observable != names.value && names.index != names.value
    ensures names.entity !in metadata && names.observable !in metadata && names.index !in metadata && names.value !in metadata
  {
    var l := [names.entity, names.observable, names.index, names.value] + metadata;
    assert l[0] == names.entity && l[1] == names.observable && l[2] == names.index && l[3] == names.value;
    forall k | 0 <= k < |metadata|
      ensures metadata[k] != names.entity && metadata[k] != names.observable
      ensures metadata[k] != names.index && metadata[k] != names.value
    {
      assert l[k + 4] == metadata[k];
    }
  }
}
