/**
 * An on-demand feature view: a named transformation (the udf) over the
 * features of some input feature views, computed at request time.
 *
 * Two operations are modelled: running the udf on a caller's DataFrame whose
 * input columns may carry the `"{view}__{feature}"` prefix
 * (GetTransformedFeaturesDf), and inferring or validating the view's output
 * features by running the udf on an empty, typed probe DataFrame
 * (InferFeaturesFromBatchSource).
 */
module OnDemandFeatureViews {
  import opened Frames
  import opened Features

  datatype Option<T> = None | Some(value: T)

  /** The two errors inference raises. */
  datatype InferenceError =
    | SpecifiedFeaturesNotPresent(featureNames: seq<string>, featureViewName: string)
    | RegistryInferenceFailure(repoObjectType: string, specificIssue: string)

  function InferenceFailureMessage(viewName: string): string
  {
    "Could not infer Features for the feature view '" + viewName + "'."
  }

  // ---------------------------------------------------------------------------
  // Prefix resolution

  /** What the prefix-resolution loop has built so far: the caller's table and the bare labels to clean up. */
  datatype Resolution = Resolution(table: Table, cleanup: seq<string>)

  /**
   * One pass of the inner loop body: if the prefixed label is a column of the
   * table as it stands now, copy that column to the bare label and record it.
   */
  function ResolveStep(res: Resolution, ref: FeatureRef): Resolution
  {
    if ref.Prefixed() in res.table.cols then
      Resolution(SetColumn(res.table, ref.Bare(), res.table.cols[ref.Prefixed()]), res.cleanup + [ref.Bare()])
    else
      res
  }

  /** The effect of the copy loops over `refs` on table `t`. */
  function Resolve(refs: seq<FeatureRef>, t: Table): Resolution
    decreases |refs|
  {
    if refs == [] then Resolution(t, []) else ResolveStep(Resolve(refs[..|refs| - 1], t), refs[|refs| - 1])
  }

  /**
   * Resolution adds or overwrites only the recorded labels, every recorded
   * label is a bare label, and every other column keeps its values.
   */
  lemma {:induction false} ResolveFrame(refs: seq<FeatureRef>, t: Table)
    ensures var r := Resolve(refs, t);
      && r.table.cols.Keys == t.cols.Keys + Elements(r.cleanup)
      && (forall c :: c in t.cols && c !in r.cleanup ==> r.table.cols[c] == t.cols[c])
      && (forall c :: c in r.cleanup ==> c in BareNames(refs))
    decreases |refs|
  {
    if refs != [] {
      ResolveFrame(refs[..|refs| - 1], t);
    }
  }

  /** Resolving one more reference is one more step. */
  lemma ResolveSnoc(done: seq<FeatureRef>, ref: FeatureRef, t: Table)
    ensures Resolve(done + [ref], t) == ResolveStep(Resolve(done, t), ref)
  {
    assert (done + [ref])[..|done|] == done;
  }

  /** The bare labels of the references whose prefixed label is in `keys`, in order. */
  function Recorded(refs: seq<FeatureRef>, keys: set<string>): (r: seq<string>)
    ensures forall c :: c in r <==> exists i :: 0 <= i < |refs| && refs[i].Bare() == c && refs[i].Prefixed() in keys
    decreases |refs|
  {
    if refs == [] then []
    else
      var init := refs[..|refs| - 1];
      var last := refs[|refs| - 1];
      var r := Recorded(init, keys) + (if last.Prefixed() in keys then [last.Bare()] else []);
      assert forall i :: 0 <= i < |init| ==> init[i] == refs[i];
      assert forall c :: c in r ==> exists i :: 0 <= i < |refs| && refs[i].Bare() == c && refs[i].Prefixed() in keys by {
        forall c | c in r
          ensures exists i :: 0 <= i < |refs| && refs[i].Bare() == c && refs[i].Prefixed() in keys
        {
          if c in Recorded(init, keys) {
            var i :| 0 <= i < |init| && init[i].Bare() == c && init[i].Prefixed() in keys;
            assert refs[i] == init[i];
          } else {
            assert refs[|refs| - 1].Bare() == c;
          }
        }
      }
      assert forall i :: 0 <= i < |refs| && refs[i].Prefixed() in keys ==> refs[i].Bare() in r by {
        forall i | 0 <= i < |refs| && refs[i].Prefixed() in keys
          ensures refs[i].Bare() in r
        {
          if i < |init| {
            assert init[i] == refs[i];
          }
        }
      }
      r
  }

  /**
   * Resolution only appends to the table's column order, and what it
   * appends are recorded labels.
   */
  lemma {:induction false} ResolveOrder(refs: seq<FeatureRef>, t: Table)
    ensures var res := Resolve(refs, t);
      && |t.order| <= |res.table.order|
      && res.table.order[..|t.order|] == t.order
      && forall k :: |t.order| <= k < |res.table.order| ==> res.table.order[k] in res.cleanup
    decreases |refs|
  {
    if refs != [] {
      var init := refs[..|refs| - 1];
      ResolveOrder(init, t);
    }
  }

  /** Removing the recorded labels from the resolved column order gives back the caller's order. */
  lemma CleanupRestoresOrder(refs: seq<FeatureRef>, t: Table)
    requires BareNames(refs) !! t.cols.Keys
    ensures var res := Resolve(refs, t);
      Without(res.table.order, Elements(res.cleanup)) == t.order
  {
    var res := Resolve(refs, t);
    var recorded := Elements(res.cleanup);
    ResolveFrame(refs, t);
    ResolveOrder(refs, t);
    assert forall x :: x in t.order ==> x in t.cols;
    WithoutAppended(res.table.order, t.order, recorded);
  }

  /**
   * When no column named like a bare label exists before the call, dropping
   * the recorded labels gives back exactly the caller's table: the same
   * columns, the same values, the same order.
   */
  lemma CleanupRestoresTable(refs: seq<FeatureRef>, t: Table)
    requires BareNames(refs) !! t.cols.Keys
    ensures var res := Resolve(refs, t);
      (forall c :: c in res.cleanup ==> c in res.table.cols) && DropColumns(res.table, res.cleanup) == t
  {
    var res := Resolve(refs, t);
    ResolveFrame(refs, t);
    CleanupRestoresOrder(refs, t);
    var dropped := DropColumns(res.table, res.cleanup);
    assert dropped.cols.Keys == t.cols.Keys;
    assert dropped.cols == t.cols;
  }

  /**
   * A column that already held a bare label is overwritten by the prefixed
   * column and then dropped, so the caller loses it.
   */
  lemma ExistingBareColumnIsDropped()
    ensures var t: Table := Frame(["fv__x", "x"], map["fv__x" := Column([IntValue(1)], "int64"), "x" := Column([IntValue(2)], "int64")]);
      var res := Resolve([FeatureRef("fv", Feature("x", Int64, map[]))], t);
      && res.table.cols["x"] == Column([IntValue(1)], "int64")
      && "x" in t.cols
      && "x" !in DropColumns(res.table, res.cleanup).cols
  {
    var t: Table := Frame(["fv__x", "x"], map["fv__x" := Column([IntValue(1)], "int64"), "x" := Column([IntValue(2)], "int64")]);
    var ref := FeatureRef("fv", Feature("x", Int64, map[]));
    assert ref.Prefixed() == "fv__x";
    assert Resolve([ref], t) == ResolveStep(Resolve([], t), ref);
    ResolveFrame([ref], t);
  }

  /**
   * Every input feature whose prefixed column the caller's table has gets its
   * bare label recorded, whatever columns the table held before.
   */
  lemma {:induction false} PresentPrefixIsRecorded(refs: seq<FeatureRef>, t: Table, i: nat)
    requires i < |refs| && refs[i].Prefixed() in t.cols
    ensures refs[i].Bare() in Resolve(refs, t).cleanup
    decreases |refs|
  {
    var init := refs[..|refs| - 1];
    ResolveFrame(init, t);
    if i < |refs| - 1 {
      assert init[i] == refs[i];
      PresentPrefixIsRecorded(init, t, i);
    }
  }

  /**
   * So after cleanup, no column is left under such a feature's bare label,
   * even when the caller's table had one before the call.
   */
  lemma PresentPrefixBareIsDropped(refs: seq<FeatureRef>, t: Table, i: nat)
    requires i < |refs| && refs[i].Prefixed() in t.cols
    ensures var res := Resolve(refs, t);
      && (forall c :: c in res.cleanup ==> c in res.table.cols)
      && refs[i].Bare() !in DropColumns(res.table, res.cleanup).cols
  {
    ResolveFrame(refs, t);
    PresentPrefixIsRecorded(refs, t, i);
  }

  /**
   * A serving call on a batch that holds only `fv1__x = [1.0, 2.0]`: the udf
   * sees `x = [1.0, 2.0]`, and afterwards the batch has no `x` column left.
   */
  lemma PrefixedOnlyBatchScenario()
    ensures var t: Table := Frame(["fv1__x"], map["fv1__x" := Column([RealValue(1.0), RealValue(2.0)], "float64")]);
      var res := Resolve([FeatureRef("fv1", Feature("x", Float, map[]))], t);
      && res.cleanup == ["x"]
      && "x" in res.table.cols && res.table.cols["x"] == Column([RealValue(1.0), RealValue(2.0)], "float64")
      && DropColumns(res.table, res.cleanup) == t
  {
    var t: Table := Frame(["fv1__x"], map["fv1__x" := Column([RealValue(1.0), RealValue(2.0)], "float64")]);
    var ref := FeatureRef("fv1", Feature("x", Float, map[]));
    assert ref.Prefixed() == "fv1__x";
    assert Resolve([ref], t) == ResolveStep(Resolve([], t), ref);
    ResolveFrame([ref], t);
    var res := Resolve([ref], t);
    assert res.table.order == ["fv1__x", "x"];
    assert Without(res.table.order, {"x"}) == ["fv1__x"];
  }

  /**
   * Which bare labels are recorded for cleanup: exactly those of the
   * references whose prefixed column the caller's table has, in loop order.
   * A reference whose prefixed column is absent records nothing.
   */
  lemma {:induction false} ResolveRecordsPresentPrefixes(refs: seq<FeatureRef>, t: Table)
    requires NoLabelClash(refs)
    ensures Resolve(refs, t).cleanup == Recorded(refs, t.cols.Keys)
    decreases |refs|
  {
    if refs != [] {
      var init := refs[..|refs| - 1];
      var last := refs[|refs| - 1];
      assert NoLabelClash(init) by {
        assert forall i :: 0 <= i < |init| ==> init[i] == refs[i];
      }
      ResolveRecordsPresentPrefixes(init, t);
      ResolveFrame(init, t);
      assert last.Prefixed() !in BareNames(init) by {
        LabelsOfRefs(init);
        assert forall k :: 0 <= k < |init| ==> init[k].Bare() != last.Prefixed();
      }
    }
  }

  /**
   * The bare column passed to the udf holds the values of the prefixed
   * column of the last reference with that bare label whose prefixed column
   * is present (later copies overwrite earlier ones).
   */
  lemma {:induction false} ResolveCopiesPrefixedColumn(refs: seq<FeatureRef>, t: Table, i: nat)
    requires NoLabelClash(refs)
    requires i < |refs| && refs[i].Prefixed() in t.cols
    requires forall j :: i < j < |refs| && refs[j].Prefixed() in t.cols ==> refs[j].Bare() != refs[i].Bare()
    ensures var res := Resolve(refs, t);
      refs[i].Bare() in res.table.cols && res.table.cols[refs[i].Bare()] == t.cols[refs[i].Prefixed()]
    decreases |refs|
  {
    var init := refs[..|refs| - 1];
    var last := refs[|refs| - 1];
    var prev := Resolve(init, t);
    ResolveFrame(init, t);
    assert forall k :: 0 <= k < |init| ==> init[k] == refs[k];
    assert last.Prefixed() !in BareNames(init) by {
      LabelsOfRefs(init);
      assert forall k :: 0 <= k < |init| ==> init[k].Bare() != last.Prefixed();
    }
    if i == |refs| - 1 {
      assert last.Prefixed() in prev.table.cols;
    } else {
      ResolveCopiesPrefixedColumn(init, t, i);
    }
  }

  // ---------------------------------------------------------------------------
  // Schema inference

  /** The empty column of the pandas dtype the value type maps to. */
  function ProbeColumn(ref: FeatureRef, toPandas: ValueType -> string): Column
  {
    Column([], toPandas(ref.feature.dtype))
  }

  /**
   * The probe DataFrame built by the inference loops: for each reference, an
   * empty column under its prefixed label and then under its bare label.
   */
  function Probe(refs: seq<FeatureRef>, toPandas: ValueType -> string): Table
    decreases |refs|
  {
    if refs == [] then EmptyTable
    else
      var init := refs[..|refs| - 1];
      var last := refs[|refs| - 1];
      var col := ProbeColumn(last, toPandas);
      SetColumn(SetColumn(Probe(init, toPandas), last.Prefixed(), col), last.Bare(), col)
  }

  /** Probing one more reference adds its two columns. */
  lemma ProbeSnoc(done: seq<FeatureRef>, ref: FeatureRef, toPandas: ValueType -> string)
    ensures Probe(done + [ref], toPandas)
         == SetColumn(SetColumn(Probe(done, toPandas), ref.Prefixed(), ProbeColumn(ref, toPandas)), ref.Bare(), ProbeColumn(ref, toPandas))
  {
    assert (done + [ref])[..|done|] == done;
  }

  /** The probe's labels are exactly the prefixed and the bare labels of the input features. */
  lemma {:induction false} ProbeLabels(refs: seq<FeatureRef>, toPandas: ValueType -> string)
    ensures Probe(refs, toPandas).cols.Keys == PrefixedNames(refs) + BareNames(refs)
    decreases |refs|
  {
    if refs != [] {
      ProbeLabels(refs[..|refs| - 1], toPandas);
    }
  }

  /** The probe has zero rows: every column is empty. */
  lemma {:induction false} ProbeHasNoRows(refs: seq<FeatureRef>, toPandas: ValueType -> string)
    ensures forall c :: c in Probe(refs, toPandas).cols ==> Probe(refs, toPandas).cols[c].values == []
    decreases |refs|
  {
    if refs != [] {
      var init := refs[..|refs| - 1];
      var last := refs[|refs| - 1];
      ProbeHasNoRows(init, toPandas);
      var p0 := Probe(init, toPandas);
      var p1 := SetColumn(p0, last.Prefixed(), ProbeColumn(last, toPandas));
      var p2 := SetColumn(p1, last.Bare(), ProbeColumn(last, toPandas));
      forall c | c in p2.cols
        ensures p2.cols[c].values == []
      {
        if c != last.Bare() && c != last.Prefixed() {
          assert p2.cols[c] == p1.cols[c] == p0.cols[c];
        }
      }
    }
  }

  /**
   * Each probe column has the pandas dtype of the last feature that wrote
   * it, i.e. of the value type of that feature.
   */
  lemma {:induction false} ProbeColumnType(refs: seq<FeatureRef>, toPandas: ValueType -> string, i: nat, c: string)
    requires i < |refs| && (c == refs[i].Prefixed() || c == refs[i].Bare())
    requires forall j :: i < j < |refs| ==> c != refs[j].Prefixed() && c != refs[j].Bare()
    ensures c in Probe(refs, toPandas).cols && Probe(refs, toPandas).cols[c].dtype == toPandas(refs[i].feature.dtype)
    decreases |refs|
  {
    if i < |refs| - 1 {
      var init := refs[..|refs| - 1];
      assert forall k :: 0 <= k < |init| ==> init[k] == refs[k];
      ProbeColumnType(init, toPandas, i, c);
    }
  }

  /** One feature per output column, in column order, named after the column and typed by `toValueType`. */
  function InferredFeatures(out: Table, toValueType: (string, string) -> ValueType): (r: seq<Feature>)
    ensures |r| == |out.order|
    ensures forall i :: 0 <= i < |r| ==>
              && r[i].name == out.order[i]
              && out.order[i] in out.cols
              && r[i].dtype == toValueType(out.order[i], out.cols[out.order[i]].dtype)
    ensures forall i, j :: 0 <= i < j < |r| ==> r[i].name != r[j].name
  {
    forall i, j | 0 <= i < j < |out.order| ensures out.order[i] != out.order[j] {
      DistinctAt(out.order, i, j);
    }
    seq(|out.order|, i requires 0 <= i < |out.order| =>
      var c := out.order[i];
      Feature(c, toValueType(c, out.cols[c].dtype), map[]))
  }

  /** The declared features that are not among the inferred ones, in declaration order. */
  function Missing(declared: seq<Feature>, inferred: seq<Feature>): seq<Feature>
    decreases |declared|
  {
    if declared == [] then []
    else
      var last := declared[|declared| - 1];
      Missing(declared[..|declared| - 1], inferred) + (if Present(last, inferred) then [] else [last])
  }

  /**
   * The missing features are exactly the declared ones absent from the
   * inferred list, so none is missing exactly when all are present.
   */
  lemma {:induction false} MissingExactly(declared: seq<Feature>, inferred: seq<Feature>)
    ensures forall f :: f in Missing(declared, inferred) <==> f in declared && !Present(f, inferred)
    ensures Missing(declared, inferred) == [] <==> forall f :: f in declared ==> Present(f, inferred)
    decreases |declared|
  {
    if declared != [] {
      var init := declared[..|declared| - 1];
      var last := declared[|declared| - 1];
      assert declared == init + [last];
      MissingExactly(init, inferred);
    }
  }

  lemma MissingSnoc(declared: seq<Feature>, m: nat, inferred: seq<Feature>)
    requires m < |declared|
    ensures Missing(declared[..m + 1], inferred)
         == Missing(declared[..m], inferred) + (if Present(declared[m], inferred) then [] else [declared[m]])
  {
    assert declared[..m + 1][..m] == declared[..m];
  }

  /** The names of some features, in order. */
  function Names(fs: seq<Feature>): (r: seq<string>)
    ensures |r| == |fs|
    ensures forall i :: 0 <= i < |fs| ==> r[i] == fs[i].name
  {
    seq(|fs|, i requires 0 <= i < |fs| => fs[i].name)
  }

  // ---------------------------------------------------------------------------
  // The feature view

  class OnDemandFeatureView {
    const name: string
    var features: seq<Feature>
    const inputs: seq<InputBinding>
    /** The user's transformation, a total function from DataFrame to DataFrame. */
    const udf: Table -> Table

    constructor (name: string, features: seq<Feature>, inputs: seq<InputBinding>, udf: Table -> Table)
      ensures this.name == name && this.features == features && this.inputs == inputs && this.udf == udf
    {
      this.name := name;
      this.features := features;
      this.inputs := inputs;
      this.udf := udf;
    }

    /**
     * The copy loops: every input feature whose prefixed label is a column of
     * `df` is copied to its bare label, and the bare labels are returned in
     * the order they were copied.
     */
    method CopyPrefixedColumns(df: DataFrame) returns (columnsToCleanup: seq<string>)
      modifies df
      ensures Resolution(df.table, columnsToCleanup) == Resolve(Refs(InputViews(inputs)), old(df.table))
    {
      ghost var views := InputViews(inputs);
      columnsToCleanup := [];
      var i := 0;
      while i < |inputs|
        invariant 0 <= i <= |inputs|
        invariant Resolution(df.table, columnsToCleanup) == Resolve(Refs(views[..i]), old(df.table))
      {
        columnsToCleanup := CopyViewFeatures(df, inputs[i].view, columnsToCleanup, Refs(views[..i]), old(df.table));
        assert views[..i + 1][..i] == views[..i];
        i := i + 1;
      }
      assert views[..i] == views;
    }

    /**
     * The inner copy loop, over the features of one input view `inputFv`;
     * `done` are the references the outer loop has already visited.
     */
    static method CopyViewFeatures(df: DataFrame, inputFv: FeatureView, cleanup: seq<string>,
                                   ghost done: seq<FeatureRef>, ghost original: Table)
      returns (columnsToCleanup: seq<string>)
      requires Resolution(df.table, cleanup) == Resolve(done, original)
      modifies df
      ensures Resolution(df.table, columnsToCleanup) == Resolve(done + ViewRefs(inputFv), original)
    {
      columnsToCleanup := cleanup;
      var j := 0;
      assert done + ViewRefs(inputFv)[..0] == done;
      while j < |inputFv.features|
        invariant 0 <= j <= |inputFv.features|
        invariant Resolution(df.table, columnsToCleanup) == Resolve(done + ViewRefs(inputFv)[..j], original)
      {
        var feature := inputFv.features[j];
        ghost var ref := FeatureRef(inputFv.name, feature);
        ghost var visited := done + ViewRefs(inputFv)[..j];
        ghost var before := Resolution(df.table, columnsToCleanup);
        assert done + ViewRefs(inputFv)[..j + 1] == visited + [ref];
        ResolveSnoc(visited, ref, original);
        var fullFeatureRef := inputFv.name + "__" + feature.name;
        assert fullFeatureRef == ref.Prefixed();
        if df.Contains(fullFeatureRef) {
          df.SetItem(feature.name, df.Get(fullFeatureRef));
          columnsToCleanup := columnsToCleanup + [feature.name];
        }
        assert Resolution(df.table, columnsToCleanup) == ResolveStep(before, ref);
        j := j + 1;
      }
      assert ViewRefs(inputFv)[..j] == ViewRefs(inputFv);
    }

    /**
     * Runs the udf on the caller's DataFrame. With full feature names, every
     * present prefixed input column is first copied to its bare label; after
     * the udf returns, the copied labels are dropped from `df` again. The
     * udf's result is returned as it is.
     */
    method GetTransformedFeaturesDf(fullFeatureNames: bool, df: DataFrame) returns (transformed: Table)
      modifies df
      ensures var resolved := if fullFeatureNames then Resolve(Refs(InputViews(inputs)), old(df.table))
                              else Resolution(old(df.table), []);
        && transformed == udf(resolved.table)
        && (forall c :: c in resolved.cleanup ==> c in resolved.table.cols)
        && df.table == DropColumns(resolved.table, resolved.cleanup)
      ensures !fullFeatureNames ==> transformed == udf(old(df.table)) && df.table == old(df.table)
      ensures BareNames(Refs(InputViews(inputs))) !! old(df.table).cols.Keys ==> df.table == old(df.table)
    {
      var columnsToCleanup: seq<string> := [];
      if fullFeatureNames {
        columnsToCleanup := CopyPrefixedColumns(df);
        ResolveFrame(Refs(InputViews(inputs)), old(df.table));
        if BareNames(Refs(InputViews(inputs))) !! old(df.table).cols.Keys {
          CleanupRestoresTable(Refs(InputViews(inputs)), old(df.table));
        }
      } else {
        WithoutDisjoint(df.table.order, Elements([]));
      }
      transformed := udf(df.table);
      df.Drop(columnsToCleanup);
    }

    /**
     * The probe loops: an empty DataFrame that gets, for every input feature,
     * a zero-row column under its prefixed label and another under its bare
     * label, both of the pandas dtype its value type maps to.
     */
    method BuildProbe(toPandas: ValueType -> string) returns (df: Table)
      ensures df == Probe(Refs(InputViews(inputs)), toPandas)
    {
      ghost var views := InputViews(inputs);
      ghost var done: seq<FeatureRef> := [];
      df := EmptyTable;
      var i := 0;
      while i < |inputs|
        invariant 0 <= i <= |inputs|
        invariant done == Refs(views[..i])
        invariant df == Probe(done, toPandas)
      {
        var featureView := inputs[i].view;
        VisitedStart(views, i);
        var j := 0;
        while j < |featureView.features|
          invariant 0 <= j <= |featureView.features|
          invariant done == Visited(views, i, j)
          invariant df == Probe(done, toPandas)
        {
          var feature := featureView.features[j];
          ghost var ref := FeatureRef(featureView.name, feature);
          VisitedNext(views, i, j);
          ProbeSnoc(done, ref, toPandas);
          var dtype := toPandas(feature.dtype);
          df := SetColumn(df, featureView.name + "__" + feature.name, Column([], dtype));
          df := SetColumn(df, feature.name, Column([], dtype));
          done := done + [ref];
          j := j + 1;
        }
        VisitedEnd(views, i);
        i := i + 1;
      }
      assert views[..i] == views;
    }

    /** The loop that turns each column of the udf's output into a feature. */
    static method FeaturesOfColumns(outputDf: Table, toValueType: (string, string) -> ValueType)
      returns (inferredFeatures: seq<Feature>)
      ensures inferredFeatures == InferredFeatures(outputDf, toValueType)
    {
      ghost var expected := InferredFeatures(outputDf, toValueType);
      inferredFeatures := [];
      var k := 0;
      while k < |outputDf.order|
        invariant 0 <= k <= |outputDf.order|
        invariant inferredFeatures == expected[..k]
      {
        var f := outputDf.order[k];
        assert expected[..k + 1] == expected[..k] + [expected[k]];
        inferredFeatures := inferredFeatures + [Feature(f, toValueType(f, outputDf.cols[f].dtype), map[])];
        k := k + 1;
      }
      assert expected[..k] == expected;
    }

    /**
     * The loop that collects the declared features absent from the inferred
     * ones, in declaration order.
     */
    static method MissingFeatures(declared: seq<Feature>, inferred: seq<Feature>) returns (missingFeatures: seq<Feature>)
      ensures missingFeatures == Missing(declared, inferred)
      ensures forall f :: f in missingFeatures <==> f in declared && !Present(f, inferred)
    {
      missingFeatures := [];
      var m := 0;
      while m < |declared|
        invariant 0 <= m <= |declared|
        invariant missingFeatures == Missing(declared[..m], inferred)
      {
        MissingSnoc(declared, m, inferred);
        if !Present(declared[m], inferred) {
          missingFeatures := missingFeatures + [declared[m]];
        }
        m := m + 1;
      }
      assert declared[..m] == declared;
      MissingExactly(declared, inferred);
    }

    /**
     * Runs the udf on an empty probe DataFrame holding every input feature
     * under its prefixed and its bare label, turns the output columns into
     * features, and then either checks the declared features against them or
     * adopts them when none were declared.
     */
    method InferFeaturesFromBatchSource(toPandas: ValueType -> string, toValueType: (string, string) -> ValueType)
      returns (error: Option<InferenceError>)
      modifies this
      ensures var inferred := InferredFeatures(udf(Probe(Refs(InputViews(inputs)), toPandas)), toValueType);
        && (old(features) != [] ==>
              && features == old(features)
              && (Missing(old(features), inferred) == [] ==> error == None)
              && (Missing(old(features), inferred) != [] ==>
                    error == Some(SpecifiedFeaturesNotPresent(Names(Missing(old(features), inferred)), name))))
        && (old(features) == [] ==>
              && features == inferred
              && (inferred != [] ==> error == None)
              && (inferred == [] ==>
                    error == Some(RegistryInferenceFailure("OnDemandFeatureView", InferenceFailureMessage(name)))))
      ensures error == None ==> features != [] && forall f :: f in features ==> Present(f, InferredFeatures(udf(Probe(Refs(InputViews(inputs)), toPandas)), toValueType))
    {
      var df := BuildProbe(toPandas);
      var outputDf := udf(df);
      var inferredFeatures := FeaturesOfColumns(outputDf, toValueType);

      if features != [] {
        var missingFeatures := MissingFeatures(features, inferredFeatures);
        MissingExactly(features, inferredFeatures);
        if missingFeatures != [] {
          return Some(SpecifiedFeaturesNotPresent(Names(missingFeatures), name));
        }
      } else {
        features := inferredFeatures;
        forall f | f in features
          ensures Present(f, inferredFeatures)
        {
          var n :| 0 <= n < |features| && features[n] == f;
          assert SameFeature(f, inferredFeatures[n]);
        }
      }

      if features == [] {
        return Some(RegistryInferenceFailure("OnDemandFeatureView", InferenceFailureMessage(name)));
      }
      return None;
    }
  }
}
