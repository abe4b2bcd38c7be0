/** Resting-state-network labels in Yeo's format: network names are
    cut out of labels such as `7Networks_LH_Default_Temp_8`, optionally
    refined by a sub-area and a hemisphere, and a parcellation (one
    network name per parcel) is turned into the index of parcel positions
    of each network, which is the parcel-to-region map of the pipeline. */
module RsnTransfer {
  import opened Frames

  /** Why a label could not be processed: Python's IndexError on a label
      with too few `_`-separated fields, or ValueError from `int()`. */
  datatype RsnError = TooFewFields(name: string) | NotAnInteger(roiLabel: string)

  // ---------------------------------------------------------------------
  // `str.split(sep)` and its inverse

  /** Python's `s.split(sep)`: every occurrence of `sep` ends a field,
      empty fields included, so there is always at least one field. */
  function Split(s: string, sep: char): (r: seq<string>)
    ensures |r| >= 1
  {
    if s == [] then [""]
    else
      var rest := Split(s[1..], sep);
      if s[0] == sep then [""] + rest else [[s[0]] + rest[0]] + rest[1..]
  }

  /** `sep.join(fields)`. */
  function Join(fields: seq<string>, sep: char): string
    requires |fields| >= 1
  {
    if |fields| == 1 then fields[0] else fields[0] + [sep] + Join(fields[1..], sep)
  }

  /** Splitting loses nothing: joining the fields back gives the label,
      and no field holds the separator. */
  lemma {:induction false} SplitJoin(s: string, sep: char)
    ensures Join(Split(s, sep), sep) == s
    ensures forall k :: 0 <= k < |Split(s, sep)| ==> sep !in Split(s, sep)[k]
  {
    if s != [] {
      var rest := Split(s[1..], sep);
      SplitJoin(s[1..], sep);
      if s[0] == sep {
        assert Split(s, sep) == [""] + rest;
        assert ([""] + rest)[1..] == rest;
        assert forall k :: 1 <= k < |[""] + rest| ==> ([""] + rest)[k] == rest[k - 1];
      } else {
        var r := [[s[0]] + rest[0]] + rest[1..];
        assert Split(s, sep) == r;
        assert forall k :: 1 <= k < |r| ==> r[k] == rest[k];
        if |rest| > 1 {
          assert r[1..] == rest[1..];
          assert Join(rest, sep) == rest[0] + [sep] + Join(rest[1..], sep);
        }
        assert s == [s[0]] + s[1..];
      }
    }
  }

  // ---------------------------------------------------------------------
  // `extractRSNName`

  /** `[sub in field for sub in subs].index(True)`, or None when no entry
      of `subs` occurs in `field`. */
  function FirstSubstring(subs: seq<string>, field: string): (r: Option<nat>)
    ensures r.Some? ==> r.value < |subs| && IsSubstring(subs[r.value], field)
    ensures r.Some? ==> forall j :: 0 <= j < r.value ==> !IsSubstring(subs[j], field)
    ensures r.None? ==> forall j :: 0 <= j < |subs| ==> !IsSubstring(subs[j], field)
  {
    if subs == [] then None
    else if IsSubstring(subs[0], field) then Some(0)
    else
      match FirstSubstring(subs[1..], field)
      case None => None
      case Some(k) => Some(k + 1)
  }

  /** The network name of a Yeo label (third `_`-field), with the first
      sub-area of `detailed[network]` found in the fourth field appended,
      or `_OTHER` when a non-empty sub-area list has no match, and then the
      hemisphere (second field) when `useLR`. */
  function ExtractRSNName(name: string, useLR: bool, detailed: map<string, seq<string>>): (r: Result<string, RsnError>)
    ensures r.Err? <==> |Split(name, '_')| < 3
                        || (Split(name, '_')[2] in detailed
                            && detailed[Split(name, '_')[2]] != []
                            && |Split(name, '_')| < 4)
    ensures r.Ok? ==> |r.value| >= |Split(name, '_')[2]| && r.value[..|Split(name, '_')[2]|] == Split(name, '_')[2]
  {
    var f := Split(name, '_');
    if |f| < 3 then Err(TooFewFields(name))
    else
      var network := f[2];
      var detailedName :=
        if network in detailed then
          var subs := detailed[network];
          if subs == [] then Ok(network)
          else if |f| < 4 then Err(TooFewFields(name))
          else
            match FirstSubstring(subs, f[3])
            case Some(k) => Ok(network + "_" + subs[k])
            case None => Ok(network + "_OTHER")
        else Ok(network);
      match detailedName
      case Err(e) => Err(e)
      case Ok(n) => Ok(if useLR then n + "_" + f[1] else n)
  }

  /** With no sub-area list for the network and no hemisphere, the name
      is the third field. */
  lemma ExtractPlain(name: string, detailed: map<string, seq<string>>)
    requires |Split(name, '_')| >= 3 && Split(name, '_')[2] !in detailed
    ensures ExtractRSNName(name, false, detailed) == Ok(Split(name, '_')[2])
  {
  }

  /** A field without the separator splits to itself. */
  lemma {:induction false} SplitField(w: string, sep: char)
    requires sep !in w
    ensures Split(w, sep) == [w]
  {
    if w != [] {
      SplitField(w[1..], sep);
      assert [w[0]] + w[1..] == w;
    }
  }

  /** Splitting a field followed by the separator peels that field off. */
  lemma {:induction false} SplitFirstField(w: string, sep: char, t: string)
    requires sep !in w
    ensures Split(w + [sep] + t, sep) == [w] + Split(t, sep)
  {
    if w == [] {
      assert w + [sep] + t == [sep] + t;
      assert ([sep] + t)[1..] == t;
    } else {
      var s := w + [sep] + t;
      assert s[1..] == w[1..] + [sep] + t;
      SplitFirstField(w[1..], sep, t);
      assert [w[0]] + w[1..] == w;
    }
  }

  /** The other direction of the round trip: fields without the
      separator come back out of their join unchanged. */
  lemma {:induction false} JoinSplit(fields: seq<string>, sep: char)
    requires |fields| >= 1
    requires forall k :: 0 <= k < |fields| ==> sep !in fields[k]
    ensures Split(Join(fields, sep), sep) == fields
  {
    if |fields| == 1 {
      SplitField(fields[0], sep);
    } else {
      JoinSplit(fields[1..], sep);
      SplitFirstField(fields[0], sep, Join(fields[1..], sep));
      assert [fields[0]] + fields[1..] == fields;
    }
  }

  /** The label that the source's comment uses as its example,
      `7Networks_LH_Default_Temp_8`, written as the join of its fields. */
  lemma ExtractDefaultExample(name: string)
    requires name == Join(["7Networks", "LH", "Default", "Temp", "8"], '_')
    ensures ExtractRSNName(name, false, map[]) == Ok("Default")
    ensures ExtractRSNName(name, true, map[]) == Ok("Default_LH")
  {
    JoinSplit(["7Networks", "LH", "Default", "Temp", "8"], '_');
    assert "Default" + "_" + "LH" == "Default_LH";
  }

  /** A sub-area list with a match appends the first matching entry. */
  lemma ExtractDetailMatch(name: string, detailed: map<string, seq<string>>, k: nat)
    requires |Split(name, '_')| >= 4
    requires Split(name, '_')[2] in detailed
    requires k < |detailed[Split(name, '_')[2]]|
    requires IsSubstring(detailed[Split(name, '_')[2]][k], Split(name, '_')[3])
    requires forall j :: 0 <= j < k ==> !IsSubstring(detailed[Split(name, '_')[2]][j], Split(name, '_')[3])
    ensures ExtractRSNName(name, false, detailed)
         == Ok(Split(name, '_')[2] + "_" + detailed[Split(name, '_')[2]][k])
  {
    var f := Split(name, '_');
    var r := FirstSubstring(detailed[f[2]], f[3]);
    if r.None? {
    } else if r.value < k {
    } else if r.value > k {
    }
  }

  /** A non-empty sub-area list without a match appends `_OTHER`; an
      empty list leaves the network name as it is. */
  lemma ExtractDetailNoMatch(name: string, detailed: map<string, seq<string>>)
    requires |Split(name, '_')| >= 4
    requires Split(name, '_')[2] in detailed
    ensures var subs := detailed[Split(name, '_')[2]];
            (forall j :: 0 <= j < |subs| ==> !IsSubstring(subs[j], Split(name, '_')[3]))
            ==> ExtractRSNName(name, false, detailed)
                == Ok(Split(name, '_')[2] + (if subs == [] then "" else "_OTHER"))
  {
    var f := Split(name, '_');
    var subs := detailed[f[2]];
    if forall j :: 0 <= j < |subs| ==> !IsSubstring(subs[j], f[3]) {
      if subs == [] {
        assert f[2] + "" == f[2];
      }
    }
  }

  /** With `useLR` the hemisphere field is appended after any sub-area. */
  lemma ExtractWithHemisphere(name: string, detailed: map<string, seq<string>>)
    ensures ExtractRSNName(name, true, detailed).Ok? == ExtractRSNName(name, false, detailed).Ok?
    ensures ExtractRSNName(name, false, detailed).Ok? ==>
              ExtractRSNName(name, true, detailed).value
              == ExtractRSNName(name, false, detailed).value + "_" + Split(name, '_')[1]
  {
  }

  // ---------------------------------------------------------------------
  // `collectNamesRSN`

  predicate IsDigit(c: char)
  {
    '0' <= c <= '9'
  }

  /** Python's `str.isspace`, the characters `int()` strips around a
      literal. */
  predicate IsSpace(c: char)
  {
    || ('\U{0009}' <= c <= '\U{000D}')
    || ('\U{001C}' <= c <= '\U{0020}')
    || c == '\U{0085}' || c == '\U{00A0}' || c == '\U{1680}'
    || ('\U{2000}' <= c <= '\U{200A}')
    || c == '\U{2028}' || c == '\U{2029}' || c == '\U{202F}' || c == '\U{205F}' || c == '\U{3000}'
  }

  /** Digits with single underscores between them, as Python's `int()`
      accepts. */
  predicate IsDigitGroups(s: string)
  {
    |s| > 0 && IsDigit(s[0]) && IsDigit(s[|s| - 1])
    && (forall i :: 0 <= i < |s| ==> IsDigit(s[i]) || s[i] == '_')
    && (forall i :: 0 <= i < |s| - 1 ==> !(s[i] == '_' && s[i + 1] == '_'))
  }

  function TrimSpace(s: string): (r: string)
    ensures |r| <= |s|
    decreases |s|
  {
    if s != [] && IsSpace(s[0]) then TrimSpace(s[1..])
    else if s != [] && IsSpace(s[|s| - 1]) then TrimSpace(s[..|s| - 1])
    else s
  }

  /** Whether `int(s)` succeeds on an ASCII label. */
  predicate IsIntLiteral(s: string)
  {
    var t := TrimSpace(s);
    if |t| > 0 && (t[0] == '+' || t[0] == '-') then IsDigitGroups(t[1..]) else IsDigitGroups(t)
  }

  /** The first ROI label that `int()` refuses, if any. */
  function FirstNonInteger(rsn: seq<(string, string)>): (r: Option<nat>)
    ensures r.Some? ==> r.value < |rsn| && !IsIntLiteral(rsn[r.value].0)
                        && forall j :: 0 <= j < r.value ==> IsIntLiteral(rsn[j].0)
    ensures r.None? ==> forall j :: 0 <= j < |rsn| ==> IsIntLiteral(rsn[j].0)
  {
    if rsn == [] then None
    else if !IsIntLiteral(rsn[0].0) then Some(0)
    else
      match FirstNonInteger(rsn[1..])
      case None => None
      case Some(k) => Some(k + 1)
  }

  /** The cleaned network names of the ROI names, in order. */
  function CleanNames(names: seq<string>, useLR: bool, detailed: map<string, seq<string>>): (r: Result<seq<string>, RsnError>)
    ensures r.Ok? ==> |r.value| == |names|
    ensures r.Ok? ==> forall i :: 0 <= i < |names| ==> ExtractRSNName(names[i], useLR, detailed) == Ok(r.value[i])
    ensures r.Err? ==> exists i :: 0 <= i < |names| && ExtractRSNName(names[i], useLR, detailed) == Err(r.error)
    ensures r.Ok? <==> forall i :: 0 <= i < |names| ==> ExtractRSNName(names[i], useLR, detailed).Ok?
  {
    if names == [] then Ok([])
    else
      match ExtractRSNName(names[0], useLR, detailed)
      case Err(e) => Err(e)
      case Ok(n) =>
        match CleanNames(names[1..], useLR, detailed)
        case Err(e) =>
          assert exists i :: 0 <= i < |names[1..]| && ExtractRSNName(names[1..][i], useLR, detailed) == Err(e);
          var i :| 0 <= i < |names[1..]| && ExtractRSNName(names[1..][i], useLR, detailed) == Err(e);
          assert names[i + 1] == names[1..][i];
          Err(e)
        case Ok(rest) =>
          assert forall i :: 1 <= i < |names| ==> names[i] == names[1..][i - 1];
          Ok([n] + rest)
  }

  /** `collectNamesRSN`: every ROI label is first passed through `int()`
      (the result is discarded), then every ROI name is cleaned. */
  function CollectNamesRSN(rsn: seq<(string, string)>, useLR: bool, detailed: map<string, seq<string>>): (r: Result<seq<string>, RsnError>)
    ensures r.Ok? ==> |r.value| == |rsn|
    ensures r.Ok? ==> forall i :: 0 <= i < |rsn| ==> ExtractRSNName(rsn[i].1, useLR, detailed) == Ok(r.value[i])
    ensures (exists i :: 0 <= i < |rsn| && !IsIntLiteral(rsn[i].0)) ==> r.Err? && r.error.NotAnInteger?
    ensures r.Ok? <==> forall i :: 0 <= i < |rsn| ==> IsIntLiteral(rsn[i].0) && ExtractRSNName(rsn[i].1, useLR, detailed).Ok?
  {
    match FirstNonInteger(rsn)
    case Some(k) => Err(NotAnInteger(rsn[k].0))
    case None => CleanNames(seq(|rsn|, i requires 0 <= i < |rsn| => rsn[i].1), useLR, detailed)
  }

  // ---------------------------------------------------------------------
  // `indices4RSNs`

  /** `[pos for pos, roi in enumerate(p) if roi == x]`. */
  function Positions(p: seq<string>, x: string): (r: seq<nat>)
    ensures forall i: nat :: i in r <==> i < |p| && p[i] == x
    ensures forall a, b :: 0 <= a < b < |r| ==> r[a] < r[b]
    ensures forall a :: 0 <= a < |r| ==> r[a] < |p|
  {
    if p == [] then []
    else
      var q := p[..|p| - 1];
      var prev := Positions(q, x);
      assert forall i :: 0 <= i < |q| ==> p[i] == q[i];
      if p[|p| - 1] == x then prev + [|p| - 1] else prev
  }

  /** `indices4RSNs`: one entry per distinct label, holding the positions
      of that label in ascending order. */
  method Indices4RSNs(parcellation: seq<string>) returns (res: map<string, seq<nat>>)
    ensures res.Keys == set x | x in parcellation
    ensures forall x :: x in res ==> res[x] == Positions(parcellation, x)
  {
    var names := set x | x in parcellation;
    res := map[];
    while names != {}
      invariant names <= set x | x in parcellation
      invariant res.Keys == (set x | x in parcellation) - names
      invariant forall x :: x in res ==> res[x] == Positions(parcellation, x)
      decreases names
    {
      var rsn :| rsn in names;
      var idx := Positions(parcellation, rsn);
      res := res[rsn := idx];
      names := names - {rsn};
    }
  }

  /** The index is a partition of the parcel positions: lists of distinct
      labels are disjoint, every position lies in the list of its own
      label, and no list holds anything else. */
  lemma {:induction false} IndicesPartition(parcellation: seq<string>, res: map<string, seq<nat>>)
    requires res.Keys == set x | x in parcellation
    requires forall x :: x in res ==> res[x] == Positions(parcellation, x)
    ensures forall x, y, i :: x in res && y in res && x != y && i in res[x] ==> i !in res[y]
    ensures forall i :: 0 <= i < |parcellation| ==> parcellation[i] in res && i in res[parcellation[i]]
    ensures forall x, i :: x in res && i in res[x] ==> i < |parcellation|
  {
    forall i | 0 <= i < |parcellation|
      ensures parcellation[i] in res && i in res[parcellation[i]]
    {
      assert parcellation[i] in set x | x in parcellation;
    }
  }
}
