/** The ADNI-B data loader's group bookkeeping: the per-group tables of
    subjects, the subject-to-group classification read off them, the
    removal of a subject, and the re-classification of subjects by labels
    such as `HC(AB-)` that split a diagnostic group by amyloid status. */
module AdniB {
  import opened Frames

  /** A subject's BOLD time series (regions by time points). */
  type TimeSeries = seq<seq<real>>

  /** The group tables: group label -> subject id -> time series. */
  type GroupTables = map<string, map<string, TimeSeries>>

  // ---------------------------------------------------------------------
  // `ADNI_B.get_classification` and `ADNI_B.discardSubject`

  /** The classification built by visiting `groups` in order and mapping
      every subject of each group to that group, so a later group
      overrides an earlier one. */
  function Classification(groups: seq<string>, ts: GroupTables): (c: map<string, string>)
    requires forall g :: g in groups ==> g in ts
    ensures forall s :: s in c ==> c[s] in groups && s in ts[c[s]]
  {
    if groups == [] then map[]
    else
      var last := groups[|groups| - 1];
      var prev := Classification(groups[..|groups| - 1], ts);
      assert forall g :: g in groups[..|groups| - 1] ==> g in groups;
      prev + map s | s in ts[last] :: last
  }

  /** Exactly the subjects of the groups' tables are classified. */
  lemma {:induction false} ClassificationKeys(groups: seq<string>, ts: GroupTables)
    requires forall g :: g in groups ==> g in ts
    ensures forall s :: s in Classification(groups, ts) <==> exists g :: g in groups && s in ts[g]
  {
    if groups != [] {
      var p := groups[..|groups| - 1];
      assert forall g :: g in p ==> g in groups;
      ClassificationKeys(p, ts);
      assert forall g :: g in groups <==> g in p || g == groups[|groups| - 1];
    }
  }

  lemma ClassificationStep(groups: seq<string>, ts: GroupTables, i: nat)
    requires forall g :: g in groups ==> g in ts
    requires i < |groups|
    ensures Classification(groups[..i + 1], ts) == Classification(groups[..i], ts) + map s | s in ts[groups[i]] :: groups[i]
  {
    assert groups[..i + 1][..i] == groups[..i];
  }

  lemma ConstMapAdd(before: map<string, string>, done: set<string>, x: string, g: string)
    ensures (before + map s | s in done :: g)[x := g] == before + map s | s in done + {x} :: g
  {
  }

  /** A subject is classified under the last group (in the order of
      `groups`) whose table holds it. */
  lemma {:induction false} ClassificationLastGroupWins(groups: seq<string>, ts: GroupTables, s: string, j: nat)
    requires forall g :: g in groups ==> g in ts
    requires j < |groups| && s in ts[groups[j]]
    requires forall k :: j < k < |groups| ==> s !in ts[groups[k]]
    ensures s in Classification(groups, ts) && Classification(groups, ts)[s] == groups[j]
  {
    var n := |groups|;
    var prefix := groups[..n - 1];
    if j == n - 1 {
    } else {
      assert forall g :: g in prefix ==> g in groups;
      assert forall k :: j < k < |prefix| ==> prefix[k] == groups[k];
      ClassificationLastGroupWins(prefix, ts, s, j);
      assert s !in ts[groups[n - 1]];
    }
  }

  /** The tables after `discardSubject(id)`: the subject is deleted from
      the table of the group it is classified under, and only there. */
  function Discard(groups: seq<string>, ts: GroupTables, id: string): (r: GroupTables)
    requires forall g :: g in groups ==> g in ts
    ensures r.Keys == ts.Keys
  {
    var c := Classification(groups, ts);
    if id in c then ts[c[id] := ts[c[id]] - {id}] else ts
  }

  /** What discarding does and does not change: an unknown id changes
      nothing; a known id leaves its own group's table and only that
      table, and every other (group, subject) entry keeps its series. */
  lemma DiscardEffect(groups: seq<string>, ts: GroupTables, id: string)
    requires forall g :: g in groups ==> g in ts
    ensures var c := Classification(groups, ts);
            var r := Discard(groups, ts, id);
            && (id !in c ==> r == ts)
            && (id in c ==> id !in r[c[id]])
            && (forall g, s :: g in ts && s in ts[g] && !(id in c && g == c[id] && s == id) ==> s in r[g] && r[g][s] == ts[g][s])
            && (forall g :: g in r ==> r[g].Keys <= ts[g].Keys)
  {
  }

  /** An `ADNI_B` loader once its files are read: the fixed group labels
      and the per-group subject tables. */
  class Loader {
    var groups: seq<string>
    var timeseries: GroupTables

    ghost predicate Valid()
      reads this
    {
      forall g :: g in groups ==> g in timeseries
    }

    /** The loader as `_loadAllData` leaves it: one table per group. */
    constructor (tables: GroupTables)
      requires "HC" in tables && "MCI" in tables && "AD" in tables
      ensures Valid()
      ensures groups == ["HC", "MCI", "AD"] && timeseries == tables
    {
      groups := ["HC", "MCI", "AD"];
      timeseries := tables;
    }

    /** `get_classification`. */
    method GetClassification() returns (classi: map<string, string>)
      requires Valid()
      ensures classi == Classification(groups, timeseries)
    {
      classi := map[];
      var i := 0;
      while i < |groups|
        invariant 0 <= i <= |groups|
        invariant classi == Classification(groups[..i], timeseries)
      {
        var group := groups[i];
        var tsGroup := timeseries[group];
        var subjects := tsGroup.Keys;
        ghost var before := classi;
        ghost var done: set<string> := {};
        while subjects != {}
          invariant done + subjects == tsGroup.Keys
          invariant classi == before + map s | s in done :: group
          decreases subjects
        {
          var subj :| subj in subjects;
          ConstMapAdd(before, done, subj, group);
          classi := classi[subj := group];
          subjects := subjects - {subj};
          done := done + {subj};
        }
        ClassificationStep(groups, timeseries, i);
        i := i + 1;
      }
      assert groups[..i] == groups;
    }

    /** `discardSubject`. */
    method DiscardSubject(subjectID: string)
      requires Valid()
      modifies this
      ensures Valid() && groups == old(groups)
      ensures timeseries == Discard(old(groups), old(timeseries), subjectID)
    {
      var classi := GetClassification();
      if subjectID in classi {
        var group := classi[subjectID];
        timeseries := timeseries[group := timeseries[group] - {subjectID}];
      }
    }
  }

  // ---------------------------------------------------------------------
  // Group labels of `ADNI_B_Alt`

  /** The optional sign of a burden part: `(AB)`, `(AB+)`, `(AB-)`. */
  datatype Polarity = Unsigned | Positive | Negative

  /** A parsed group label: `HC`, or `HC(AB-)` (group, marker, sign). */
  datatype GroupSpec = Plain(name: string) | Burden(name: string, marker: string, sign: Polarity)

  predicate IsUpper(c: char)
  {
    'A' <= c <= 'Z'
  }

  /** Length of the longest prefix of `s` made of letters A-Z. */
  function UpperRun(s: string): (n: nat)
    ensures n <= |s|
    ensures forall i :: 0 <= i < n ==> IsUpper(s[i])
    ensures n < |s| ==> !IsUpper(s[n])
  {
    if s != [] && IsUpper(s[0]) then 1 + UpperRun(s[1..]) else 0
  }

  /** The part of the label the match must cover: Python's `$` also
      matches just before one trailing newline. */
  function MatchedPart(s: string): string
  {
    if |s| > 0 && s[|s| - 1] == '\n' then s[..|s| - 1] else s
  }

  /** `re.match(r"^([A-Z]+)(?:\(([A-Z]+)([+-]?)\))?$", s)`. A label that
      parses is exactly the rendering of its well-formed spec (up to the
      one trailing newline that `$` tolerates). */
  function ParseLabel(s: string): (r: Option<GroupSpec>)
    ensures r.Some? ==> WellFormed(r.value) && Render(r.value) == MatchedPart(s)
  {
    var core := MatchedPart(s);
    if ParseCore(core).Some? then
      RenderParseCore(core);
      ParseCore(core)
    else None
  }

  /** The same match on the part of the label that `$` leaves. */
  function ParseCore(core: string): Option<GroupSpec>
  {
    var n := UpperRun(core);
    if n == 0 then None
    else if n == |core| then Some(Plain(core))
    else if core[n] != '(' then None
    else
      match ParseBurdenPart(core[n + 1..])
      case None => None
      case Some(bp) => Some(Burden(core[..n], bp.0, bp.1))
  }

  /** What follows `(` in a burden label: the marker, the sign and `)`. */
  function ParseBurdenPart(inner: string): Option<(string, Polarity)>
  {
    var m := UpperRun(inner);
    if m == 0 then None
    else
      match ParseSign(inner[m..])
      case None => None
      case Some(p) => Some((inner[..m], p))
  }

  function ParseSign(after: string): Option<Polarity>
  {
    if after == ")" then Some(Unsigned)
    else if after == "+)" then Some(Positive)
    else if after == "-)" then Some(Negative)
    else None
  }

  function SignText(p: Polarity): string
  {
    match p
    case Unsigned => ""
    case Positive => "+"
    case Negative => "-"
  }

  /** The label a group spec is written as. */
  function Render(g: GroupSpec): string
  {
    match g
    case Plain(name) => name
    case Burden(name, marker, sign) => name + ("(" + (marker + (SignText(sign) + ")")))
  }

  predicate IsUpperWord(s: string)
  {
    |s| > 0 && forall i :: 0 <= i < |s| ==> IsUpper(s[i])
  }

  predicate WellFormed(g: GroupSpec)
  {
    IsUpperWord(g.name) && (g.Burden? ==> IsUpperWord(g.marker))
  }

  lemma {:induction false} UpperRunOfWord(w: string, t: string)
    requires IsUpperWord(w) || w == []
    requires t == [] || !IsUpper(t[0])
    ensures UpperRun(w + t) == |w|
  {
    if w != [] {
      assert (w + t)[1..] == w[1..] + t;
      UpperRunOfWord(w[1..], t);
    } else {
      assert w + t == t;
    }
  }

  lemma ParsePlain(name: string)
    requires IsUpperWord(name)
    ensures ParseLabel(name) == Some(Plain(name))
  {
    assert MatchedPart(name) == name;
    UpperRunOfWord(name, []);
    assert name + [] == name;
  }

  lemma ParseSignText(sign: Polarity)
    ensures ParseSign(SignText(sign) + [')']) == Some(sign)
  {
    match sign
    case Unsigned => assert SignText(sign) + [')'] == ")";
    case Positive => assert SignText(sign) + [')'] == "+)";
    case Negative => assert SignText(sign) + [')'] == "-)";
  }

  lemma ParseBurdenPartOf(marker: string, sign: Polarity)
    requires IsUpperWord(marker)
    ensures ParseBurdenPart(marker + (SignText(sign) + [')'])) == Some((marker, sign))
  {
    var tail := SignText(sign) + [')'];
    var inner := marker + tail;
    assert tail[0] == '+' || tail[0] == '-' || tail[0] == ')';
    UpperRunOfWord(marker, tail);
    assert inner[|marker|..] == tail;
    assert inner[..|marker|] == marker;
    ParseSignText(sign);
  }

  lemma CoreSplit(name: string, inner: string, core: string)
    requires IsUpperWord(name)
    requires core == name + (['('] + inner)
    ensures UpperRun(core) == |name| && core[|name|] == '('
    ensures core[|name| + 1..] == inner && core[..|name|] == name
  {
    UpperRunOfWord(name, ['('] + inner);
  }

  lemma ParseBurdenCore(name: string, marker: string, sign: Polarity, core: string)
    requires IsUpperWord(name) && IsUpperWord(marker)
    requires core == name + (['('] + (marker + (SignText(sign) + [')'])))
    ensures ParseCore(core) == Some(Burden(name, marker, sign))
  {
    ParseBurdenPartOf(marker, sign);
    CoreSplit(name, marker + (SignText(sign) + [')']), core);
  }

  lemma ParseBurden(name: string, marker: string, sign: Polarity)
    requires IsUpperWord(name) && IsUpperWord(marker)
    ensures ParseLabel(Render(Burden(name, marker, sign))) == Some(Burden(name, marker, sign))
  {
    var s := name + (['('] + (marker + (SignText(sign) + [')'])));
    assert Render(Burden(name, marker, sign)) == s;
    assert s[|s| - 1] == ')';
    assert MatchedPart(s) == s;
    ParseBurdenCore(name, marker, sign, s);
  }

  /** Every well-formed spec is read back from its label. */
  lemma ParseRender(g: GroupSpec)
    requires WellFormed(g)
    ensures ParseLabel(Render(g)) == Some(g)
  {
    match g
    case Plain(name) => ParsePlain(name);
    case Burden(name, marker, sign) => ParseBurden(name, marker, sign);
  }

  lemma SignRender(after: string)
    requires ParseSign(after).Some?
    ensures after == SignText(ParseSign(after).value) + ")"
  {
  }

  lemma BurdenPartRender(inner: string)
    requires ParseBurdenPart(inner).Some?
    ensures IsUpperWord(ParseBurdenPart(inner).value.0)
    ensures inner == ParseBurdenPart(inner).value.0 + (SignText(ParseBurdenPart(inner).value.1) + ")")
  {
    var m := UpperRun(inner);
    SignRender(inner[m..]);
    assert inner == inner[..m] + inner[m..];
  }

  lemma SplitAt(core: string, n: nat)
    requires n < |core| && core[n] == '('
    ensures core == core[..n] + ("(" + core[n + 1..])
  {
  }

  lemma RenderParseCore(core: string)
    requires ParseCore(core).Some?
    ensures Render(ParseCore(core).value) == core
    ensures WellFormed(ParseCore(core).value)
  {
    var n := UpperRun(core);
    if n != |core| {
      var inner := core[n + 1..];
      var bp := ParseBurdenPart(inner).value;
      assert ParseCore(core) == Some(Burden(core[..n], bp.0, bp.1));
      BurdenPartRender(inner);
      SplitAt(core, n);
    }
  }

  // ---------------------------------------------------------------------
  // `ADNI_B_Alt.__init__`: re-classification

  /** The only failure of the relabelling: looking a subject up in the
      metadata spreadsheet raised (no `PTID` or `ABeta_pvc` column, or no
      row for the subject). */
  datatype AltError = MetadataLookupFailed

  /** `get_subjectData(subject)['meta']['ABeta_pvc']`: the amyloid status
      in the first spreadsheet row whose PTID is the subject. */
  function AbetaStatus(meta: Frame, subject: string): (r: Result<Datum, AltError>)
    ensures r.Err? <==> (|| Text("PTID") !in meta.columns
                         || Text("ABeta_pvc") !in meta.columns
                         || forall i :: 0 <= i < |meta.rows| ==> Cell(meta.rows[i], Text("PTID")) != Text(subject))
    ensures r.Ok? ==> exists i :: 0 <= i < |meta.rows| && Cell(meta.rows[i], Text("PTID")) == Text(subject)
                                  && (forall j :: 0 <= j < i ==> Cell(meta.rows[j], Text("PTID")) != Text(subject))
                                  && r.value == Cell(meta.rows[i], Text("ABeta_pvc"))
  {
    if Text("PTID") !in meta.columns then Err(MetadataLookupFailed)
    else
      var rows := FilterRows(meta.rows, r => Cell(r, Text("PTID")) == Text(subject));
      if rows == [] then
        assert forall i :: 0 <= i < |meta.rows| ==> Cell(meta.rows[i], Text("PTID")) != Text(subject) by {
          forall i | 0 <= i < |meta.rows| ensures Cell(meta.rows[i], Text("PTID")) != Text(subject) {
            assert meta.rows[i] in meta.rows;
          }
        }
        Err(MetadataLookupFailed)
      else if Text("ABeta_pvc") !in meta.columns then Err(MetadataLookupFailed)
      else
        FilterRowsFirst(meta.rows, r => Cell(r, Text("PTID")) == Text(subject));
        Ok(Cell(rows[0], Text("ABeta_pvc")))
  }

  predicate IsZero(d: Datum) { d == Int(0) || d == Real(0.0) }

  predicate IsOne(d: Datum) { d == Int(1) || d == Real(1.0) }

  /** `(ABeta_pvc == 0 and sign == '-') or (ABeta_pvc == 1 and sign == '+')`. */
  predicate StatusMatches(status: Datum, sign: Polarity)
  {
    (IsZero(status) && sign == Negative) || (IsOne(status) && sign == Positive)
  }

  /** Whether label `l` takes a subject of original group `sg` with the
      given amyloid lookup. */
  predicate Qualifies(sg: string, l: string, status: Result<Datum, AltError>)
  {
    IsSubstring(sg, l) && ParseLabel(l).Some?
    && (ParseLabel(l).value.Plain? || (status.Ok? && StatusMatches(status.value, ParseLabel(l).value.sign)))
  }

  /** Whether visiting label `l` performs the lookup and the lookup fails. */
  predicate LookupFails(sg: string, l: string, status: Result<Datum, AltError>)
  {
    IsSubstring(sg, l) && ParseLabel(l).Some? && ParseLabel(l).value.Burden? && status.Err?
  }

  /** The inner loop over the new labels for one subject: the label it
      ends up with (the last one that takes it), or the lookup failure. */
  function Assign(sg: string, labels: seq<string>, status: Result<Datum, AltError>): Result<Option<string>, AltError>
  {
    if labels == [] then Ok(None)
    else
      var l := labels[|labels| - 1];
      match Assign(sg, labels[..|labels| - 1], status)
      case Err(e) => Err(e)
      case Ok(prev) =>
        if LookupFails(sg, l, status) then Err(status.error)
        else if Qualifies(sg, l, status) then Ok(Some(l))
        else Ok(prev)
  }

  lemma AssignPrefix(labels: seq<string>)
    requires labels != []
    ensures forall j :: 0 <= j < |labels| - 1 ==> labels[..|labels| - 1][j] == labels[j]
  {
  }

  /** Whether some label, scanning from the end, satisfies `bad`. */
  predicate SomeLabel(labels: seq<string>, bad: string -> bool)
  {
    labels != [] && (SomeLabel(labels[..|labels| - 1], bad) || bad(labels[|labels| - 1]))
  }

  lemma {:induction false} SomeLabelExists(labels: seq<string>, bad: string -> bool)
    ensures SomeLabel(labels, bad) <==> exists j :: 0 <= j < |labels| && bad(labels[j])
  {
    if labels != [] {
      var n := |labels| - 1;
      var p := labels[..n];
      SomeLabelExists(p, bad);
      if SomeLabel(p, bad) {
        var j :| 0 <= j < |p| && bad(p[j]);
        assert labels[j] == p[j];
      } else if !bad(labels[n]) {
        forall j | 0 <= j < |labels| ensures !bad(labels[j]) {
          if j < n { assert labels[j] == p[j]; }
        }
      }
    }
  }

  lemma {:induction false} AssignErrSomeLabel(sg: string, labels: seq<string>, status: Result<Datum, AltError>)
    ensures Assign(sg, labels, status).Err? <==> SomeLabel(labels, l => LookupFails(sg, l, status))
  {
    if labels != [] {
      AssignErrSomeLabel(sg, labels[..|labels| - 1], status);
    }
  }

  /** The relabelling of one subject fails exactly when some burden label
      that its group matches needs the failing lookup. */
  lemma AssignFails(sg: string, labels: seq<string>, status: Result<Datum, AltError>)
    ensures Assign(sg, labels, status).Err? <==> exists j :: 0 <= j < |labels| && LookupFails(sg, labels[j], status)
  {
    var bad := l => LookupFails(sg, l, status);
    AssignErrSomeLabel(sg, labels, status);
    SomeLabelExists(labels, bad);
    assert forall j :: 0 <= j < |labels| ==> (bad(labels[j]) <==> LookupFails(sg, labels[j], status));
  }

  /** A subject keeps no label exactly when no label takes it and no
      label needs a failing lookup. */
  lemma {:induction false} AssignNone(sg: string, labels: seq<string>, status: Result<Datum, AltError>)
    ensures Assign(sg, labels, status) == Ok(None)
            <==> forall j :: 0 <= j < |labels| ==> !Qualifies(sg, labels[j], status) && !LookupFails(sg, labels[j], status)
  {
    if labels != [] {
      var p := labels[..|labels| - 1];
      AssignNone(sg, p, status);
      AssignPrefix(labels);
      if Assign(sg, labels, status) == Ok(None) {
        assert Assign(sg, p, status) == Ok(None);
        forall j | 0 <= j < |labels|
          ensures !Qualifies(sg, labels[j], status) && !LookupFails(sg, labels[j], status)
        {
          if j < |p| { assert labels[j] == p[j]; }
        }
      }
    }
  }

  /** The last label satisfying `good`, if any. */
  function LastOf(labels: seq<string>, good: string -> bool): Option<string>
  {
    if labels == [] then None
    else if good(labels[|labels| - 1]) then Some(labels[|labels| - 1])
    else LastOf(labels[..|labels| - 1], good)
  }

  lemma {:induction false} LastOfSome(labels: seq<string>, good: string -> bool)
    requires LastOf(labels, good).Some?
    ensures exists k :: 0 <= k < |labels| && labels[k] == LastOf(labels, good).value && good(labels[k])
                        && forall j :: k < j < |labels| ==> !good(labels[j])
  {
    var n := |labels| - 1;
    var p := labels[..n];
    if !good(labels[n]) {
      LastOfSome(p, good);
      var k :| 0 <= k < |p| && p[k] == LastOf(p, good).value && good(p[k])
               && forall j :: k < j < |p| ==> !good(p[j]);
      assert labels[k] == p[k];
      forall j | k < j < |labels| ensures !good(labels[j]) {
        if j < n { assert labels[j] == p[j]; }
      }
    }
  }

  /** When the inner loop succeeds, it keeps the last label that takes
      the subject. */
  lemma {:induction false} AssignLastOf(sg: string, labels: seq<string>, status: Result<Datum, AltError>, good: string -> bool)
    requires forall l :: good(l) == Qualifies(sg, l, status)
    requires Assign(sg, labels, status).Ok?
    ensures Assign(sg, labels, status).value == LastOf(labels, good)
  {
    if labels != [] {
      AssignLastOf(sg, labels[..|labels| - 1], status, good);
    }
  }

  /** A subject that keeps a label gets the last label that takes it. */
  lemma AssignSome(sg: string, labels: seq<string>, status: Result<Datum, AltError>)
    requires Assign(sg, labels, status).Ok? && Assign(sg, labels, status).value.Some?
    ensures exists k :: 0 <= k < |labels| && labels[k] == Assign(sg, labels, status).value.value
                        && Qualifies(sg, labels[k], status)
                        && forall j :: k < j < |labels| ==> !Qualifies(sg, labels[j], status)
  {
    var good := l => Qualifies(sg, l, status);
    AssignLastOf(sg, labels, status, good);
    LastOfSome(labels, good);
    var k :| 0 <= k < |labels| && labels[k] == LastOf(labels, good).value && good(labels[k])
             && forall j :: k < j < |labels| ==> !good(labels[j]);
    assert Qualifies(sg, labels[k], status);
    forall j | k < j < |labels| ensures !Qualifies(sg, labels[j], status) {
      assert !good(labels[j]);
    }
  }

  /** The classification `ADNI_B_Alt` builds: every subject of the
      original classification that some label takes, mapped to the last
      such label; or the lookup failure if any subject meets it. */
  function Relabeled(orig: map<string, string>, labels: seq<string>, meta: Frame): (r: Result<map<string, string>, AltError>)
    ensures r.Ok? ==> forall s :: s in r.value ==>
              && s in orig && r.value[s] in labels
              && IsSubstring(orig[s], r.value[s]) && ParseLabel(r.value[s]).Some?
  {
    if exists s :: s in orig && Outcome(orig, labels, meta, s).Err? then Err(MetadataLookupFailed)
    else
      var m := map s | s in orig && Outcome(orig, labels, meta, s).value.Some?
                     :: Outcome(orig, labels, meta, s).value.value;
      assert forall s :: s in m ==> m[s] in labels && IsSubstring(orig[s], m[s]) && ParseLabel(m[s]).Some? by {
        forall s | s in m ensures m[s] in labels && IsSubstring(orig[s], m[s]) && ParseLabel(m[s]).Some? {
          AssignSome(orig[s], labels, AbetaStatus(meta, s));
        }
      }
      Ok(m)
  }

  /** What the inner loop decides for subject `s`. */
  function Outcome(orig: map<string, string>, labels: seq<string>, meta: Frame, s: string): Result<Option<string>, AltError>
    requires s in orig
  {
    Assign(orig[s], labels, AbetaStatus(meta, s))
  }

  /** Every error of the relabelling is the metadata lookup failure. */
  lemma AssignErrorIsLookup(sg: string, labels: seq<string>, status: Result<Datum, AltError>)
    ensures Assign(sg, labels, status).Err? ==> Assign(sg, labels, status).error == MetadataLookupFailed
  {
  }

  /** The inner loop of `ADNI_B_Alt.__init__` for one subject: walks the
      new labels, looking the subject's amyloid status up only when a
      burden label matches its group. */
  method RelabelOne(subject: string, subjectGroup: string, labels: seq<string>, meta: Frame)
    returns (res: Result<Option<string>, AltError>)
    ensures res == Assign(subjectGroup, labels, AbetaStatus(meta, subject))
  {
    ghost var status := AbetaStatus(meta, subject);
    var current: Option<string> := None;
    var j := 0;
    while j < |labels|
      invariant 0 <= j <= |labels|
      invariant Assign(subjectGroup, labels[..j], status) == Ok(current)
    {
      var group := labels[j];
      assert labels[..j + 1][..j] == labels[..j];
      if IsSubstring(subjectGroup, group) {
        var m := ParseLabel(group);
        if m.Some? {
          if m.value.Plain? {
            current := Some(group);
          } else {
            var data := AbetaStatus(meta, subject);
            if data.Err? {
              assert Assign(subjectGroup, labels[..j + 1], status) == Err(data.error);
              AssignFailsExtend(subjectGroup, labels, j, status);
              AssignErrorIsLookup(subjectGroup, labels, status);
              return Err(MetadataLookupFailed);
            }
            if StatusMatches(data.value, m.value.sign) {
              current := Some(group);
            }
          }
        }
      }
      j := j + 1;
    }
    assert labels[..j] == labels;
    res := Ok(current);
  }

  /** Once the loop has failed on a prefix, the whole label list fails. */
  lemma AssignFailsExtend(sg: string, labels: seq<string>, j: nat, status: Result<Datum, AltError>)
    requires j < |labels| && LookupFails(sg, labels[j], status)
    ensures Assign(sg, labels, status).Err?
  {
    AssignFails(sg, labels, status);
  }

  /** `ADNI_B_Alt.__init__`'s loop over the original classification. */
  method Relabel(orig: map<string, string>, labels: seq<string>, meta: Frame) returns (r: Result<map<string, string>, AltError>)
    ensures r == Relabeled(orig, labels, meta)
  {
    var classification: map<string, string> := map[];
    var subjects := orig.Keys;
    while subjects != {}
      invariant subjects <= orig.Keys
      invariant forall s :: s in orig.Keys - subjects ==> Outcome(orig, labels, meta, s).Ok?
      invariant classification == map s | s in orig.Keys - subjects && Outcome(orig, labels, meta, s).value.Some?
                                        :: Outcome(orig, labels, meta, s).value.value
      decreases subjects
    {
      var subject :| subject in subjects;
      var res := RelabelOne(subject, orig[subject], labels, meta);
      if res.Err? {
        assert Outcome(orig, labels, meta, subject).Err?;
        return Err(MetadataLookupFailed);
      }
      if res.value.Some? {
        classification := classification[subject := res.value.value];
      }
      subjects := subjects - {subject};
    }
    assert orig.Keys - subjects == orig.Keys;
    r := Ok(classification);
  }
}
