# On-demand feature views, modelled in Dafny

This project models the core of Feast's `OnDemandFeatureView`
(`sdk/python/feast/on_demand_feature_view.py`): a named feature view whose
values are computed at request time by a user-defined function (the *udf*)
from the features of some input feature views.

Two operations are modelled and proved:

- **`get_transformed_features_df`** — runs the udf on the caller's DataFrame.
  When full feature names are requested, the DataFrame's input columns carry
  the prefix `"{view.name}__{feature.name}"`. Every such column that is present
  is first copied to its bare label `feature.name`, because the udf is written
  against bare names. The bare labels copied this way are recorded, and after
  the udf returns they are dropped from the caller's DataFrame in place. The
  udf's result is returned as it is.
- **`infer_features_from_batch_source`** — builds a zero-row *probe*
  DataFrame with two empty columns per input feature (prefixed and bare), both
  typed by the value-type-to-pandas mapping. It runs the udf on the probe and
  turns every output column into a `Feature`. Declared features are then
  validated against the inferred list (`SpecifiedFeaturesNotPresentError`).
  If no features were declared, the inferred list is adopted. The call fails
  with `RegistryInferenceFailure` when the view still has no features.

Layout:

- `frames.dfy` (module `Frames`) — the part of a pandas DataFrame these
  operations use. A `Table` is an ordered set of distinct column labels, each
  with a column of values and a dtype name. `SetColumn` is `df[name] = col`,
  and `DropColumns` is `df.drop(columns=...)`. The class `DataFrame` wraps a
  `Table` that the on-demand feature view mutates in place.
- `features.dfy` (module `Features`) — `ValueType`, `Feature`, the input
  `FeatureView` (name and features), and the `inputs` dictionary as a sequence
  of `InputBinding`s in insertion order. `Refs` is the sequence of
  (view, feature) pairs the nested `for` loops visit, in order.
- `on_demand_feature_view.dfy` (module `OnDemandFeatureViews`) — the class
  `OnDemandFeatureView`, with the mutable `features` field and constant
  `name`, `inputs` and `udf`. Each loop of the two methods is specified by a
  left fold over `Refs`: `Resolve` for the copy loops and `Probe` for the
  probe loops. The lemmas beside those folds state what the loops achieve.

The udf is a total function from tables to tables. The two type mappings
(`feast_value_type_to_pandas_type` and `python_type_to_feast_value_type`)
are parameters of `InferFeaturesFromBatchSource`. Their bodies live in
`feast/type_map.py`, which is not part of this model.

On three points the model follows the code's actual behaviour:

- The prefix is the input view's `name` attribute, not the key under which
  the view is stored in `inputs`.
- Cleanup does not restore the caller's column set in every case. A column
  that already existed under a bare label is overwritten by the prefixed
  column, recorded, and then dropped, so the caller loses it
  (`PresentPrefixIsRecorded` and `PresentPrefixBareIsDropped` in general,
  `ExistingBareColumnIsDropped` on an example). Restoration holds when no bare label was a
  column before the call (`CleanupRestoresTable`).
- Declared features are checked with `Feature` equality (`not in` on the
  inferred list) rather than by name alone. That equality is modelled as
  equality of name and value type (see "## Left out").

## Model

| member | source | states |
|---|---|---|
| OnDemandFeatureViews.OnDemandFeatureView.constructor | sdk/python/feast/on_demand_feature_view.py:45-59 | The new view stores `name`, `features`, `inputs` and `udf` as given, unchanged. |
| OnDemandFeatureViews.OnDemandFeatureView.GetTransformedFeaturesDf | sdk/python/feast/on_demand_feature_view.py:111-133 | The result is the udf applied to the resolved table. The caller's DataFrame ends up as the resolved table minus the recorded labels, and every recorded label is a column when the drop runs. Without full feature names, the udf sees the caller's table unchanged and the DataFrame stays unchanged. When no bare label was a column before the call, the DataFrame is left exactly as it was. |
| OnDemandFeatureViews.OnDemandFeatureView.CopyPrefixedColumns | sdk/python/feast/on_demand_feature_view.py:117-126 | The nested copy loops leave the DataFrame and the cleanup list exactly as the `Resolve` fold over every (view, feature) pair in `inputs` order. |
| OnDemandFeatureViews.OnDemandFeatureView.CopyViewFeatures | sdk/python/feast/on_demand_feature_view.py:120-126 | The inner copy loop over one input view's features extends the resolution by that view's pairs, in feature order. |
| OnDemandFeatureViews.ResolveFrame | sdk/python/feast/on_demand_feature_view.py:118-126 | The resolved table's labels are the caller's labels plus the recorded ones. Every column that was not recorded keeps its values. Every recorded label is the bare label of some input feature. |
| OnDemandFeatureViews.ResolveOrder | sdk/python/feast/on_demand_feature_view.py:122-126 | Copying keeps the caller's column order as a prefix and only appends recorded labels after it. |
| OnDemandFeatureViews.Recorded | sdk/python/feast/on_demand_feature_view.py:122-126 | The in-order filter over a fixed set of labels: a label is in it exactly when some input feature has it as its bare label and its prefixed label is in that set. It equals the cleanup list built from the caller's labels only when no bare label equals a prefixed label (`ResolveRecordsPresentPrefixes`). |
| OnDemandFeatureViews.ResolveRecordsPresentPrefixes | sdk/python/feast/on_demand_feature_view.py:117-126 | When no bare label equals a prefixed label, the cleanup list is the bare labels of the features whose prefixed column is present, in loop order. A feature whose prefixed column is absent is neither copied nor recorded. |
| OnDemandFeatureViews.ResolveCopiesPrefixedColumn | sdk/python/feast/on_demand_feature_view.py:121-125 | When no bare label equals a prefixed label and no later present feature shares the bare label, the bare column the udf sees holds the caller's prefixed column's values for that feature. |
| OnDemandFeatureViews.CleanupRestoresOrder | sdk/python/feast/on_demand_feature_view.py:132 | When no bare label was a column before the call, dropping the recorded labels gives back the caller's column order. |
| OnDemandFeatureViews.CleanupRestoresTable | sdk/python/feast/on_demand_feature_view.py:129-132 | When no bare label was a column before the call, every recorded label is a column and dropping them gives back the caller's table: the same labels, values and order. |
| OnDemandFeatureViews.ExistingBareColumnIsDropped | sdk/python/feast/on_demand_feature_view.py:122-132 | Take a DataFrame holding both `fv__x` and `x`. The udf sees `x` replaced by `fv__x`'s values, and after cleanup the caller's original `x` column is gone. |
| OnDemandFeatureViews.PresentPrefixIsRecorded | sdk/python/feast/on_demand_feature_view.py:122-126 | For every input and every table, a feature whose prefixed column is present has its bare label recorded for cleanup, whether or not that bare label was already a column. |
| OnDemandFeatureViews.PresentPrefixBareIsDropped | sdk/python/feast/on_demand_feature_view.py:122-132 | For every input and every table, after cleanup no column is left under the bare label of a feature whose prefixed column was present, so a bare column the caller already had is lost. |
| OnDemandFeatureViews.PrefixedOnlyBatchScenario | sdk/python/feast/on_demand_feature_view.py:117-132 | Take a batch holding only `fv1__x = [1.0, 2.0]`. The udf sees `x = [1.0, 2.0]`, `x` is the only recorded label, and cleanup gives back the original batch. |
| OnDemandFeatureViews.OnDemandFeatureView.BuildProbe | sdk/python/feast/on_demand_feature_view.py:145-150 | The probe loops build exactly the `Probe` fold over every (view, feature) pair in `inputs` order. |
| OnDemandFeatureViews.ProbeLabels | sdk/python/feast/on_demand_feature_view.py:146-150 | The probe's labels are exactly the prefixed and the bare labels of all input features. |
| OnDemandFeatureViews.ProbeHasNoRows | sdk/python/feast/on_demand_feature_view.py:145-150 | Every probe column is empty, so the probe has zero rows. |
| OnDemandFeatureViews.ProbeColumnType | sdk/python/feast/on_demand_feature_view.py:148-150 | Each probe column has the pandas dtype mapped from the value type of the last feature written under that label. |
| OnDemandFeatureViews.InferredFeatures | sdk/python/feast/on_demand_feature_view.py:152-158 | There is one inferred feature per output column, in column order. Each is named after its column and typed by the dtype mapping, and no two share a name. |
| OnDemandFeatureViews.OnDemandFeatureView.FeaturesOfColumns | sdk/python/feast/on_demand_feature_view.py:152-158 | The loop over the output columns builds exactly `InferredFeatures`. |
| OnDemandFeatureViews.MissingExactly | sdk/python/feast/on_demand_feature_view.py:161-164 | A declared feature is missing exactly when it is not among the inferred ones. Nothing is missing exactly when every declared feature is present. |
| OnDemandFeatureViews.OnDemandFeatureView.MissingFeatures | sdk/python/feast/on_demand_feature_view.py:161-164 | The loop collects the declared features absent from the inferred list, in declaration order, and only those. |
| OnDemandFeatureViews.OnDemandFeatureView.InferFeaturesFromBatchSource | sdk/python/feast/on_demand_feature_view.py:135-176 | With declared features, `features` is unchanged. The call fails with `SpecifiedFeaturesNotPresent`, listing the missing names in declaration order and the view's name, exactly when some declared feature is missing. With no declared features, `features` becomes the inferred list, and the call fails with `RegistryInferenceFailure("OnDemandFeatureView", ...)` exactly when that list is empty. On success, `features` is non-empty and every feature is among the inferred ones. |
| Features.RefsCoverViews | sdk/python/feast/on_demand_feature_view.py:119-120 | The nested loops visit every feature of every input view, and only those. |
| Features.LabelsOfRefs | sdk/python/feast/on_demand_feature_view.py:121 | A label is a bare (prefixed) label of the visited features exactly when some visited feature has it as its bare (prefixed) label. |

## Left out

- `to_proto` and `from_proto` (the protobuf codec and the `dill` serialization of the udf) are not modelled. They are serialization and foreign code.
- The `on_demand_feature_view` decorator and the `log_exceptions` wrapper are not modelled. They only build and wrap the class.
- The `config: RepoConfig` parameter of `infer_features_from_batch_source` is dropped, because the method does not read it.
- `feast_value_type_to_pandas_type` and `python_type_to_feast_value_type` are parameters. `feast/type_map.py` is not part of this model. The case where the second one raises on an unknown dtype is not modelled.
- `Feature.__eq__` is modelled as equality of name and value type. `feast/feature.py` is not part of this model. `Feature` labels take part in no proof.
- `ValueType` ordinals are not modelled. `feast/value_type.py` is not part of this model.
- pandas dtype semantics and duplicate column labels are not modelled. Column labels are distinct, a dtype is its name, and a column is its sequence of values.
- The udf is modelled as a pure, total function of the table. Exceptions raised by the udf, its side effects on the DataFrame it is given, and aliasing between the udf's result and its argument are not modelled. If the udf raises, the source leaves the copied bare columns behind, and the model has no such path.
- OnDemandFeatureViews.OnDemandFeatureView.GetTransformedFeaturesDf: the restoration postcondition is stated only for a DataFrame with no column under a bare label. In the source, such a pre-existing column is lost, as `ExistingBareColumnIsDropped` shows.
- `df.drop` raising `KeyError` for an absent label is a precondition of `DropColumns`. `GetTransformedFeaturesDf`, the only caller of `Drop`, is proved to meet it through `ResolveFrame`, so the error path never arises.
