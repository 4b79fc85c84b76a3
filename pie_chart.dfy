/** The taxonomy-label logic behind the pie charts: shortening a taxonomy
    string to one level, choosing the taxonomy columns of a table, and
    turning one sample's abundances into ordered values, labels and the
    wedge offsets. Tables, plotting and number formatting stay outside. */
module PieChart {
  import opened Wrappers
  import opened Strings

  /** `TAXONOMIC_DICT`: each level's report column and the prefix that
      marks that level inside a taxonomy string. */
  const TaxonomicDict: map<string, (string, string)> := map[
    "kingdom" := ("level-1", "D_0__"),
    "phylum" := ("level-2", "D_1__"),
    "class" := ("level-3", "D_2__"),
    "order" := ("level-4", "D_3__"),
    "family" := ("level-5", "D_4__"),
    "genus" := ("level-6", "D_5__"),
    "species" := ("level-7", "D_6__")
  ]

  /** The marker of a level, when the level is one of the seven. */
  function Marker(level: string): (m: Option<string>)
    ensures m.Some? ==> |m.value| == 5
  {
    if level in TaxonomicDict then Some(TaxonomicDict[level].1) else None
  }

  // ---------------------------------------------------------------------
  // extract_taxonomy

  /** The string the level marker selects: the second piece of the split
      on the marker, or the whole value when the level is unknown (the
      lookup fails), there is no second piece, or it is empty. The bare
      `except` turns every failure into the fallback. */
  function WorkingString(value: string, level: string): string {
    match Marker(level)
    case None => value
    case Some(m) =>
      var pieces := Split(value, m);
      if |pieces| >= 2 && pieces[1] != "" then pieces[1] else value
  }

  /** The index of the last piece longer than 6 characters, or -1. */
  function LastLongIndex(pieces: seq<string>): (k: int)
    ensures -1 <= k < |pieces|
    ensures k >= 0 ==> |pieces[k]| > 6
    ensures forall j :: k < j < |pieces| ==> |pieces[j]| <= 6
    decreases |pieces|
  {
    if pieces == [] then -1
    else if |pieces[|pieces| - 1]| > 6 then |pieces| - 1
    else LastLongIndex(pieces[..|pieces| - 1])
  }

  /** The final cleanup: a string holding both ';' and "__" becomes its
      last ';'-piece longer than 6 characters, if there is one. */
  function Cleaned(tax: string): string {
    if Contains(tax, ";") && Contains(tax, "__") then
      var pieces := Split(tax, ";");
      var k := LastLongIndex(pieces);
      if k < 0 then tax else pieces[k]
    else tax
  }

  /** What `extract_taxonomy` returns for a value at a level. */
  function Taxonomy(value: string, level: string): string {
    if Contains(value, "Unassigned;_") then "Unassigned"
    else Cleaned(WorkingString(value, level))
  }

  /** The properties that define LastLongIndex determine it. */
  lemma LastLongIndexUnique(pieces: seq<string>, k: int)
    requires -1 <= k < |pieces| && (k >= 0 ==> |pieces[k]| > 6)
    requires forall j :: k < j < |pieces| ==> |pieces[j]| <= 6
    ensures LastLongIndex(pieces) == k
  {
  }

  /** `extract_taxonomy(value)` with `TAXONOMIC_LEVEL` set to level: the
      reversed loop stops at the first long piece it meets. */
  method ExtractTaxonomy(value: string, level: string) returns (tax: string)
    ensures tax == Taxonomy(value, level)
  {
    if Contains(value, "Unassigned;_") {
      return "Unassigned";
    }
    tax := value;
    if level in TaxonomicDict {
      var pieces := Split(value, TaxonomicDict[level].1);
      if |pieces| >= 2 {
        tax := pieces[1];
        if tax == "" {
          tax := value;
        }
      }
    }
    assert tax == WorkingString(value, level);
    if Contains(tax, ";") && Contains(tax, "__") {
      var pieces := Split(tax, ";");
      var k := |pieces|;
      while k > 0
        invariant 0 <= k <= |pieces|
        invariant forall j :: k <= j < |pieces| ==> |pieces[j]| <= 6
        decreases k
      {
        k := k - 1;
        if |pieces[k]| > 6 {
          LastLongIndexUnique(pieces, k);
          return pieces[k];
        }
      }
      LastLongIndexUnique(pieces, -1);
    }
  }

  /** A value containing "Unassigned;_" is reported as "Unassigned",
      whatever the level. */
  lemma UnassignedWins(value: string, level: string)
    requires Contains(value, "Unassigned;_")
    ensures Taxonomy(value, level) == "Unassigned"
    ensures IsSlice(Taxonomy(value, level), value)
  {
    ContainsIsSlice(value, "Unassigned;_");
    assert "Unassigned;_"[0..10] == "Unassigned";
    SliceTransitive("Unassigned", "Unassigned;_", value);
  }

  /** The working string is the segment between the first and the second
      occurrence of the level's marker (or the rest of the value after the
      first when there is no second); it falls back to the whole value for
      an unknown level, an absent marker or an empty segment. */
  lemma {:induction false} WorkingStringIsSegment(value: string, level: string)
    ensures Marker(level).None? ==> WorkingString(value, level) == value
    ensures Marker(level).Some? && FirstIndex(value, Marker(level).value) < 0 ==>
      WorkingString(value, level) == value
    ensures Marker(level).Some? && FirstIndex(value, Marker(level).value) >= 0 ==>
      var m := Marker(level).value;
      var after := value[FirstIndex(value, m) + |m|..];
      var segment := if FirstIndex(after, m) < 0 then after else after[..FirstIndex(after, m)];
      WorkingString(value, level) == if segment == "" then value else segment
  {
    if Marker(level).Some? {
      var m := Marker(level).value;
      SplitFirstPiece(value, m);
      if FirstIndex(value, m) >= 0 {
        var after := value[FirstIndex(value, m) + |m|..];
        SplitAfterFirst(value, m);
        SplitFirstPiece(after, m);
        assert Split(value, m)[1] == Split(after, m)[0];
      }
    }
  }

  /** The cleanup keeps a string without both ';' and "__"; otherwise it
      gives the last ';'-piece longer than 6 characters, or the string
      itself when every piece is short. */
  lemma CleanedChoosesLastLongPiece(tax: string)
    ensures !(Contains(tax, ";") && Contains(tax, "__")) ==> Cleaned(tax) == tax
    ensures Contains(tax, ";") && Contains(tax, "__") ==>
      var pieces := Split(tax, ";");
      && ((forall j :: 0 <= j < |pieces| ==> |pieces[j]| <= 6) ==> Cleaned(tax) == tax)
      && (forall k ::
            (0 <= k < |pieces| && |pieces[k]| > 6 && forall j :: k < j < |pieces| ==> |pieces[j]| <= 6)
            ==> Cleaned(tax) == pieces[k])
  {
    if Contains(tax, ";") && Contains(tax, "__") {
      var pieces := Split(tax, ";");
      CleanedPicksLastLong(tax, pieces);
      if forall j :: 0 <= j < |pieces| ==> |pieces[j]| <= 6 {
        LastLongIndexUnique(pieces, -1);
      }
      forall k | 0 <= k < |pieces| && |pieces[k]| > 6
          && (forall j :: k < j < |pieces| ==> |pieces[j]| <= 6)
        ensures LastLongIndex(pieces) == k
      {
        LastLongIndexUnique(pieces, k);
      }
    } else {
      assert Cleaned(tax) == tax;
    }
  }

  /** Unfolds the cleanup for a string holding both ';' and "__". */
  lemma CleanedPicksLastLong(tax: string, pieces: seq<string>)
    requires Contains(tax, ";") && Contains(tax, "__") && pieces == Split(tax, ";")
    ensures LastLongIndex(pieces) < 0 ==> Cleaned(tax) == tax
    ensures LastLongIndex(pieces) >= 0 ==> Cleaned(tax) == pieces[LastLongIndex(pieces)]
  {
  }

  /** Whatever it returns, `extract_taxonomy` gives a contiguous part of
      its input. */
  lemma TaxonomyIsSlice(value: string, level: string)
    ensures IsSlice(Taxonomy(value, level), value)
  {
    if Contains(value, "Unassigned;_") {
      UnassignedWins(value, level);
    } else {
      var w := WorkingString(value, level);
      assert value[0..|value|] == value;
      if Marker(level).Some? {
        SplitPiecesAreSlices(value, Marker(level).value);
      }
      assert IsSlice(w, value);
      if Contains(w, ";") && Contains(w, "__") {
        SplitPiecesAreSlices(w, ";");
        var pieces := Split(w, ";");
        var k := LastLongIndex(pieces);
        if k < 0 {
          assert w[0..|w|] == w;
        } else {
          assert IsSlice(pieces[k], w);
        }
        assert IsSlice(Cleaned(w), w);
        SliceTransitive(Cleaned(w), w, value);
      }
    }
  }

  // ---------------------------------------------------------------------
  // prepare_df: the column filters

  predicate IsTaxonomyColumn(name: string) {
    StartsWith(name, "D_0__") || StartsWith(name, "Unassigned;")
  }

  /** The first drop: every column that is not a taxonomy column goes. */
  function TaxonomyColumns(columns: seq<string>): (r: seq<string>)
    ensures forall c :: c in r <==> c in columns && IsTaxonomyColumn(c)
    ensures |r| <= |columns|
    decreases |columns|
  {
    if columns == [] then []
    else
      var head := if IsTaxonomyColumn(columns[0]) then [columns[0]] else [];
      head + TaxonomyColumns(columns[1..])
  }

  /** The second drop: every column without the keyword goes. */
  function ColumnsWith(columns: seq<string>, keyword: string): (r: seq<string>)
    ensures forall c :: c in r <==> c in columns && Contains(c, keyword)
    ensures |r| <= |columns|
    decreases |columns|
  {
    if columns == [] then []
    else
      var head := if Contains(columns[0], keyword) then [columns[0]] else [];
      head + ColumnsWith(columns[1..], keyword)
  }

  /** The columns `prepare_df` keeps: the taxonomy columns and, when a
      filtering keyword is given, only those among them that contain it. */
  function PreparedColumns(columns: seq<string>, filtering: Option<string>): (r: seq<string>)
    ensures forall c :: c in r <==>
      && c in columns
      && (StartsWith(c, "D_0__") || StartsWith(c, "Unassigned;"))
      && (filtering.None? || Contains(c, filtering.value))
  {
    var kept := TaxonomyColumns(columns);
    if filtering.None? then kept else ColumnsWith(kept, filtering.value)
  }

  /** Filtering an already filtered list of columns changes nothing. */
  lemma {:induction false} PreparedColumnsIdempotent(columns: seq<string>, filtering: Option<string>)
    ensures PreparedColumns(PreparedColumns(columns, filtering), filtering)
      == PreparedColumns(columns, filtering)
  {
    var kept := TaxonomyColumns(columns);
    TaxonomyColumnsKeepsTaxonomy(kept);
    if filtering.Some? {
      var r := ColumnsWith(kept, filtering.value);
      TaxonomyColumnsKeepsTaxonomy(r);
      ColumnsWithKeepsMatches(r, filtering.value);
    }
  }

  lemma {:induction false} TaxonomyColumnsKeepsTaxonomy(columns: seq<string>)
    requires forall c :: c in columns ==> IsTaxonomyColumn(c)
    ensures TaxonomyColumns(columns) == columns
    decreases |columns|
  {
    if columns != [] {
      assert columns[0] in columns;
      TaxonomyColumnsKeepsTaxonomy(columns[1..]);
      assert [columns[0]] + columns[1..] == columns;
    }
  }

  lemma {:induction false} ColumnsWithKeepsMatches(columns: seq<string>, keyword: string)
    requires forall c :: c in columns ==> Contains(c, keyword)
    ensures ColumnsWith(columns, keyword) == columns
    decreases |columns|
  {
    if columns != [] {
      assert columns[0] in columns;
      ColumnsWithKeepsMatches(columns[1..], keyword);
      assert [columns[0]] + columns[1..] == columns;
    }
  }

  // ---------------------------------------------------------------------
  // prepare_plot

  /** One (taxonomy, abundance) entry of a sample's column. */
  type Entry = (string, real)

  ghost predicate NonIncreasing(s: seq<Entry>) {
    forall i, j :: 0 <= i < j < |s| ==> s[i].1 >= s[j].1
  }

  /** The entries with abundance v, in their order. */
  function WithValue(s: seq<Entry>, v: real): seq<Entry>
    decreases |s|
  {
    if s == [] then []
    else (if s[0].1 == v then [s[0]] else []) + WithValue(s[1..], v)
  }

  /** An entry no smaller than every entry of a non-increasing list can go
      in front of it. */
  lemma ConsNonIncreasing(e: Entry, t: seq<Entry>)
    requires NonIncreasing(t)
    requires forall i :: 0 <= i < |t| ==> t[i].1 <= e.1
    ensures NonIncreasing([e] + t)
  {
    forall i, j | 0 <= i < j < |t| + 1
      ensures ([e] + t)[i].1 >= ([e] + t)[j].1
    {
      assert ([e] + t)[j] == t[j - 1];
      if i > 0 {
        assert ([e] + t)[i] == t[i - 1];
      }
    }
  }

  /** What a permutation of `s[1..] + [x]` holds is bounded by a head that
      bounds both. */
  lemma BoundedByHead(x: Entry, s: seq<Entry>, rest: seq<Entry>)
    requires s != [] && NonIncreasing(s) && x.1 <= s[0].1
    requires multiset(rest) == multiset(s[1..]) + multiset{x}
    ensures forall i :: 0 <= i < |rest| ==> rest[i].1 <= s[0].1
  {
    forall i | 0 <= i < |rest|
      ensures rest[i].1 <= s[0].1
    {
      assert rest[i] in multiset(rest);
      if rest[i] != x {
        assert rest[i] in multiset(s[1..]);
        var j :| 0 <= j < |s[1..]| && s[1..][j] == rest[i];
        assert s[j + 1] == rest[i];
      }
    }
  }

  /** Puts x after every entry whose abundance is at least x's. */
  function InsertDescending(x: Entry, s: seq<Entry>): (r: seq<Entry>)
    requires NonIncreasing(s)
    ensures NonIncreasing(r)
    ensures multiset(r) == multiset(s) + multiset{x}
    ensures |r| == |s| + 1
    decreases |s|
  {
    if s == [] then [x]
    else if s[0].1 >= x.1 then
      assert s == [s[0]] + s[1..];
      var rest := InsertDescending(x, s[1..]);
      BoundedByHead(x, s, rest);
      ConsNonIncreasing(s[0], rest);
      [s[0]] + rest
    else
      assert forall i :: 0 <= i < |s| ==> s[i].1 <= s[0].1;
      ConsNonIncreasing(x, s);
      [x] + s
  }

  /** `sorted(items, key=value, reverse=True)`, inserting the entries in
      their order so that equal abundances keep their input order. */
  function SortByValueDescending(items: seq<Entry>): (r: seq<Entry>)
    ensures NonIncreasing(r)
    ensures multiset(r) == multiset(items)
    ensures |r| == |items|
    decreases |items|
  {
    if items == [] then []
    else
      var init := items[..|items| - 1];
      assert items == init + [items[|items| - 1]];
      InsertDescending(items[|items| - 1], SortByValueDescending(init))
  }

  lemma {:induction false} WithValueAppend(s: seq<Entry>, t: seq<Entry>, v: real)
    ensures WithValue(s + t, v) == WithValue(s, v) + WithValue(t, v)
    decreases |s|
  {
    if s != [] {
      assert s + t != [] && (s + t)[0] == s[0];
      assert (s + t)[1..] == s[1..] + t;
      WithValueAppend(s[1..], t, v);
      var head := if s[0].1 == v then [s[0]] else [];
      assert WithValue(s + t, v) == head + WithValue(s[1..] + t, v);
      assert WithValue(s, v) == head + WithValue(s[1..], v);
    } else {
      assert s + t == t;
    }
  }

  lemma {:induction false} WithValueNone(s: seq<Entry>, v: real)
    requires forall i :: 0 <= i < |s| ==> s[i].1 < v
    ensures WithValue(s, v) == []
    decreases |s|
  {
    if s != [] {
      WithValueNone(s[1..], v);
    }
  }

  lemma {:induction false} InsertDescendingStable(x: Entry, s: seq<Entry>, v: real)
    requires NonIncreasing(s)
    ensures WithValue(InsertDescending(x, s), v)
      == WithValue(s, v) + (if x.1 == v then [x] else [])
    decreases |s|
  {
    if s == [] {
      assert WithValue([x], v) == (if x.1 == v then [x] else []) + WithValue([], v);
    } else if s[0].1 >= x.1 {
      InsertDescendingStable(x, s[1..], v);
      InsertBehindHead(x, s, v);
    } else {
      InsertInFront(x, s, v);
    }
  }

  lemma InsertBehindHead(x: Entry, s: seq<Entry>, v: real)
    requires NonIncreasing(s) && s != [] && s[0].1 >= x.1
    requires WithValue(InsertDescending(x, s[1..]), v)
      == WithValue(s[1..], v) + (if x.1 == v then [x] else [])
    ensures WithValue(InsertDescending(x, s), v)
      == WithValue(s, v) + (if x.1 == v then [x] else [])
  {
    var rest := InsertDescending(x, s[1..]);
    assert InsertDescending(x, s) == [s[0]] + rest;
    assert [s[0]] + s[1..] == s;
    ConsKeepsWithValue(s[0], rest, s[1..], if x.1 == v then [x] else [], v);
  }

  lemma ConsKeepsWithValue(e: Entry, t: seq<Entry>, u: seq<Entry>, extra: seq<Entry>, v: real)
    requires WithValue(t, v) == WithValue(u, v) + extra
    ensures WithValue([e] + t, v) == WithValue([e] + u, v) + extra
  {
    WithValueCons(e, t, v);
    WithValueCons(e, u, v);
  }

  lemma WithValueCons(e: Entry, t: seq<Entry>, v: real)
    ensures WithValue([e] + t, v) == (if e.1 == v then [e] else []) + WithValue(t, v)
  {
    assert ([e] + t)[0] == e && ([e] + t)[1..] == t;
  }

  lemma InsertInFront(x: Entry, s: seq<Entry>, v: real)
    requires NonIncreasing(s) && s != [] && s[0].1 < x.1
    ensures WithValue(InsertDescending(x, s), v)
      == WithValue(s, v) + (if x.1 == v then [x] else [])
  {
    WithValueNone(s, x.1);
    assert InsertDescending(x, s) == [x] + s;
    WithValueCons(x, s, v);
    if x.1 == v {
      assert WithValue(s, v) == [];
    }
  }

  /** The sort is stable: for every abundance, the entries that have it
      come out in the order they went in. */
  lemma {:induction false} SortByValueDescendingStable(items: seq<Entry>, v: real)
    ensures WithValue(SortByValueDescending(items), v) == WithValue(items, v)
    decreases |items|
  {
    if items != [] {
      var init, last := items[..|items| - 1], items[|items| - 1];
      assert items == init + [last];
      SortByValueDescendingStable(init, v);
      InsertDescendingStable(last, SortByValueDescending(init), v);
      WithValueAppend(init, [last], v);
    }
  }

  /** What `prepare_plot` returns: the abundances, the labels and the
      wedge offsets, position by position. */
  datatype Plot = Plot(values: seq<real>, labels: seq<string>, explode: seq<real>)

  /** `prepare_plot(df, sampleid)` on the items of the sample's column.
      The three largest wedges are pulled out by 0.1; only abundances
      above 2 get a label. An empty column fails at `explode[0]`. */
  method PreparePlot(items: seq<Entry>) returns (r: Result<Plot>)
    ensures r.Err? <==> items == []
    ensures r.Err? ==> r.error == IndexError
    ensures r.Ok? ==>
      var sorted := SortByValueDescending(items);
      && |r.value.values| == |r.value.labels| == |r.value.explode| == |items|
      && (forall i :: 0 <= i < |items| ==> r.value.values[i] == sorted[i].1)
      && (forall i :: 0 <= i < |items| ==>
            r.value.labels[i] == if sorted[i].1 > 2.0 then sorted[i].0 else "")
      && (forall i :: 0 <= i < |items| ==>
            r.value.explode[i] == if i < 3 then 0.1 else 0.0)
  {
    var sorted := SortByValueDescending(items);
    var n := |sorted|;
    var explode := new real[n](_ => 0.0);
    if n == 0 {
      return Err(IndexError);
    }
    explode[0] := 0.1;
    if n > 1 {
      explode[1] := 0.1;
    }
    if n > 2 {
      explode[2] := 0.1;
    }
    var offsets := explode[..];  // `tuple(explode)`
    var values: seq<real> := [];
    var labels: seq<string> := [];
    for i := 0 to n
      invariant |values| == |labels| == i
      invariant forall j :: 0 <= j < i ==> values[j] == sorted[j].1
      invariant forall j :: 0 <= j < i ==>
        labels[j] == if sorted[j].1 > 2.0 then sorted[j].0 else ""
    {
      values := values + [sorted[i].1];
      if sorted[i].1 > 2.0 {
        labels := labels + [sorted[i].0];
      } else {
        labels := labels + [""];
      }
    }
    return Ok(Plot(values, labels, offsets));
  }

  // ---------------------------------------------------------------------
  // generate_pct_labels

  /** One wedge label: the taxonomy name and its percentage (the source
      renders it as `name\n(pct%)` with two decimals). */
  datatype PctLabel = PctLabel(name: string, percent: real)

  /** The labels `generate_pct_labels` emits, from the zipped pairs. */
  function PctLabels(labels: seq<string>, values: seq<real>): seq<PctLabel>
    decreases |labels|
  {
    if labels == [] || values == [] then []
    else
      var head := if labels[0] != "" then [PctLabel(labels[0], values[0])] else [];
      head + PctLabels(labels[1..], values[1..])
  }

  /** `generate_pct_labels(labels, values)`: an append loop over the zip. */
  method GeneratePctLabels(labels: seq<string>, values: seq<real>) returns (pct: seq<PctLabel>)
    ensures pct == PctLabels(labels, values)
  {
    pct := [];
    var n := if |labels| < |values| then |labels| else |values|;
    for i := 0 to n
      invariant PctLabels(labels, values) == pct + PctLabels(labels[i..], values[i..])
    {
      PctLabelsFrom(labels, values, i);
      ghost var rest := PctLabels(labels[i + 1..], values[i + 1..]);
      if labels[i] != "" {
        var entry := PctLabel(labels[i], values[i]);
        assert pct + ([entry] + rest) == (pct + [entry]) + rest;
        pct := pct + [entry];
      } else {
        assert [] + rest == rest;
      }
    }
    assert labels[n..] == [] || values[n..] == [];
  }

  /** One step of the zip from position i. */
  lemma PctLabelsFrom(labels: seq<string>, values: seq<real>, i: nat)
    requires i < |labels| && i < |values|
    ensures PctLabels(labels[i..], values[i..]) ==
      (if labels[i] != "" then [PctLabel(labels[i], values[i])] else []) + PctLabels(labels[i + 1..], values[i + 1..])
  {
    assert labels[i..][1..] == labels[i + 1..];
    assert values[i..][1..] == values[i + 1..];
  }

  /** Exactly one entry per non-empty label, in input order: the entries
      are the zipped pairs at increasing positions, and these positions are
      all those below the shorter length whose label is not empty. */
  lemma {:induction false} PctLabelsOnePerLabel(labels: seq<string>, values: seq<real>)
    returns (idx: seq<nat>)
    ensures Increasing(idx)
    ensures EntriesAt(idx, labels, values, PctLabels(labels, values))
    ensures forall i :: 0 <= i < |labels| && i < |values| && labels[i] != "" ==> i in idx
    decreases |labels|
  {
    if labels == [] || values == [] {
      idx := [];
    } else {
      var tail := PctLabelsOnePerLabel(labels[1..], values[1..]);
      var first := if labels[0] != "" then [0] else [];
      idx := first + Shifted(tail);
      IncreasingStep(first, tail);
      EntriesStep(labels, values, tail);
      forall i | 0 <= i < |labels| && i < |values| && labels[i] != ""
        ensures i in idx
      {
        if i > 0 {
          assert labels[1..][i - 1] == labels[i];
          var k :| 0 <= k < |tail| && tail[k] == i - 1;
          assert idx[k + |first|] == i;
        } else {
          assert idx[0] == 0;
        }
      }
    }
  }

  /** The positions strictly increase. */
  ghost predicate Increasing(idx: seq<nat>) {
    forall k, l :: 0 <= k < l < |idx| ==> idx[k] < idx[l]
  }

  /** out lists, entry by entry, the zipped pair at the matching position
      of idx, whose label is not empty. */
  ghost predicate EntriesAt(idx: seq<nat>, labels: seq<string>, values: seq<real>, out: seq<PctLabel>) {
    && |idx| == |out|
    && forall k :: 0 <= k < |idx| ==>
         && idx[k] < |labels| && idx[k] < |values|
         && labels[idx[k]] != ""
         && out[k] == PctLabel(labels[idx[k]], values[idx[k]])
  }

  lemma IncreasingStep(first: seq<nat>, tail: seq<nat>)
    requires first == [] || first == [0]
    requires Increasing(tail)
    ensures Increasing(first + Shifted(tail))
  {
    var idx := first + Shifted(tail);
    forall k, l | 0 <= k < l < |idx|
      ensures idx[k] < idx[l]
    {
      assert idx[l] == tail[l - |first|] + 1;
      if k >= |first| {
        assert idx[k] == tail[k - |first|] + 1;
      }
    }
  }

  lemma EntriesStep(labels: seq<string>, values: seq<real>, tail: seq<nat>)
    requires labels != [] && values != []
    requires EntriesAt(tail, labels[1..], values[1..], PctLabels(labels[1..], values[1..]))
    ensures var first := if labels[0] != "" then [0] else [];
      EntriesAt(first + Shifted(tail), labels, values, PctLabels(labels, values))
  {
    var rest := PctLabels(labels[1..], values[1..]);
    EntriesShift(labels, values, tail, rest);
    if labels[0] != "" {
      EntriesCons(labels, values, Shifted(tail), rest);
    } else {
      assert [] + Shifted(tail) == Shifted(tail);
      assert PctLabels(labels, values) == [] + rest;
    }
  }

  /** Positions into the tails are positions into the whole, one on. */
  lemma EntriesShift(labels: seq<string>, values: seq<real>, tail: seq<nat>, out: seq<PctLabel>)
    requires labels != [] && values != []
    requires EntriesAt(tail, labels[1..], values[1..], out)
    ensures EntriesAt(Shifted(tail), labels, values, out)
  {
    forall k | 0 <= k < |tail|
      ensures labels[tail[k] + 1] == labels[1..][tail[k]] && values[tail[k] + 1] == values[1..][tail[k]]
    {
    }
  }

  /** A non-empty first label puts its pair in front. */
  lemma EntriesCons(labels: seq<string>, values: seq<real>, idx: seq<nat>, out: seq<PctLabel>)
    requires labels != [] && values != [] && labels[0] != ""
    requires EntriesAt(idx, labels, values, out)
    ensures EntriesAt([0] + idx, labels, values, [PctLabel(labels[0], values[0])] + out)
  {
    var idx', out' := [0] + idx, [PctLabel(labels[0], values[0])] + out;
    forall k | 1 <= k < |idx'|
      ensures idx'[k] == idx[k - 1] && out'[k] == out[k - 1]
    {
    }
  }

  /** Every position moved one place on. */
  function Shifted(idx: seq<nat>): (r: seq<nat>)
    ensures |r| == |idx| && forall k :: 0 <= k < |idx| ==> r[k] == idx[k] + 1
  {
    seq(|idx|, k requires 0 <= k < |idx| => idx[k] + 1)
  }

  /** Every emitted percentage belongs to a wedge above the 2% threshold
      when the labels are those of `prepare_plot`. */
  lemma PctLabelsAboveThreshold(labels: seq<string>, values: seq<real>)
    requires |labels| == |values|
    requires forall i :: 0 <= i < |labels| && labels[i] != "" ==> values[i] > 2.0
    ensures forall p :: p in PctLabels(labels, values) ==> p.percent > 2.0 && p.name != ""
  {
    var idx := PctLabelsOnePerLabel(labels, values);
    forall p | p in PctLabels(labels, values)
      ensures p.percent > 2.0 && p.name != ""
    {
      var k :| 0 <= k < |PctLabels(labels, values)| && PctLabels(labels, values)[k] == p;
    }
  }
}
