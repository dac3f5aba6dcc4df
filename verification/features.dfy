/**
 * Feature schema elements and the feature views an on-demand feature view
 * takes as input, reduced to the fields the on-demand feature view reads.
 */
module Features {

  /** Feast's value-type enumeration (its ordinals are not used here). */
  datatype ValueType =
    | Unknown | Bytes | String | Int32 | Int64 | Double | Float | Bool | UnixTimestamp
    | BytesList | StringList | Int32List | Int64List | DoubleList | FloatList | BoolList
    | UnixTimestampList | Null

  /** A named, typed feature; labels default to empty. */
  datatype Feature = Feature(name: string, dtype: ValueType, labels: map<string, string>)

  /** Feature equality, as Python's `==` on two features: same name and same value type. */
  predicate SameFeature(a: Feature, b: Feature)
  {
    a.name == b.name && a.dtype == b.dtype
  }

  /** Python's `f in fs` for a list of features. */
  predicate Present(f: Feature, fs: seq<Feature>)
  {
    exists i | 0 <= i < |fs| :: SameFeature(f, fs[i])
  }

  /** An input feature view: its name and its features, in order. */
  datatype FeatureView = FeatureView(name: string, features: seq<Feature>)

  /** An entry of the `inputs` dictionary: the alias it is stored under, and the feature view. */
  datatype InputBinding = InputBinding(alias: string, view: FeatureView)

  /** The views of `inputs`, in the dictionary's insertion order (`inputs.values()`). */
  function InputViews(inputs: seq<InputBinding>): (r: seq<FeatureView>)
    ensures |r| == |inputs|
    ensures forall i :: 0 <= i < |inputs| ==> r[i] == inputs[i].view
  {
    seq(|inputs|, i requires 0 <= i < |inputs| => inputs[i].view)
  }

  /** A feature of an input view, together with that view's name. */
  datatype FeatureRef = FeatureRef(viewName: string, feature: Feature) {
    /** The column label `"{view.name}__{feature.name}"`. */
    function Prefixed(): string
    {
      viewName + "__" + feature.name
    }

    /** The column label `feature.name`. */
    function Bare(): string
    {
      feature.name
    }
  }

  /** The features of one view, each paired with the view's name. */
  function ViewRefs(v: FeatureView): (r: seq<FeatureRef>)
    ensures |r| == |v.features|
    ensures forall j :: 0 <= j < |r| ==> r[j] == FeatureRef(v.name, v.features[j])
  {
    seq(|v.features|, j requires 0 <= j < |v.features| => FeatureRef(v.name, v.features[j]))
  }

  /**
   * Every (view, feature) pair that the nested loops `for fv in views: for f
   * in fv.features` visit, in the order they visit them.
   */
  function Refs(views: seq<FeatureView>): seq<FeatureRef>
    decreases |views|
  {
    if views == [] then [] else Refs(views[..|views| - 1]) + ViewRefs(views[|views| - 1])
  }

  /** The loops visit every feature of every input view, and nothing else. */
  lemma {:induction false} RefsCoverViews(views: seq<FeatureView>)
    ensures forall i, j :: 0 <= i < |views| && 0 <= j < |views[i].features| ==>
              FeatureRef(views[i].name, views[i].features[j]) in Refs(views)
    ensures forall x :: x in Refs(views) ==> exists v :: v in views && x.viewName == v.name && x.feature in v.features
    decreases |views|
  {
    if views != [] {
      var init := views[..|views| - 1];
      var last := views[|views| - 1];
      RefsCoverViews(init);
      assert forall i :: 0 <= i < |views| - 1 ==> views[i] == init[i];
      assert forall x :: x in ViewRefs(last) ==> x.viewName == last.name && x.feature in last.features;
    }
  }

  /**
   * The references the nested loops have visited when the outer loop is at
   * view `i` and the inner loop at feature `j` of that view.
   */
  function Visited(views: seq<FeatureView>, i: nat, j: nat): seq<FeatureRef>
    requires i < |views| && j <= |views[i].features|
  {
    Refs(views[..i]) + ViewRefs(views[i])[..j]
  }

  lemma VisitedStart(views: seq<FeatureView>, i: nat)
    requires i < |views|
    ensures Visited(views, i, 0) == Refs(views[..i])
  {
    assert ViewRefs(views[i])[..0] == [];
  }

  lemma VisitedNext(views: seq<FeatureView>, i: nat, j: nat)
    requires i < |views| && j < |views[i].features|
    ensures Visited(views, i, j + 1) == Visited(views, i, j) + [FeatureRef(views[i].name, views[i].features[j])]
  {
    assert ViewRefs(views[i])[..j + 1] == ViewRefs(views[i])[..j] + [ViewRefs(views[i])[j]];
  }

  lemma VisitedEnd(views: seq<FeatureView>, i: nat)
    requires i < |views|
    ensures Visited(views, i, |views[i].features|) == Refs(views[..i + 1])
  {
    assert views[..i + 1][..i] == views[..i];
    assert ViewRefs(views[i])[..|views[i].features|] == ViewRefs(views[i]);
  }

  /** The bare labels of some feature references. */
  function BareNames(refs: seq<FeatureRef>): set<string>
    decreases |refs|
  {
    if refs == [] then {} else BareNames(refs[..|refs| - 1]) + {refs[|refs| - 1].Bare()}
  }

  /** The prefixed labels of some feature references. */
  function PrefixedNames(refs: seq<FeatureRef>): set<string>
    decreases |refs|
  {
    if refs == [] then {} else PrefixedNames(refs[..|refs| - 1]) + {refs[|refs| - 1].Prefixed()}
  }

  /** A label is a bare (prefixed) label of `refs` exactly when some reference has it as its bare (prefixed) label. */
  lemma {:induction false} LabelsOfRefs(refs: seq<FeatureRef>)
    ensures forall c :: c in BareNames(refs) <==> exists i :: 0 <= i < |refs| && refs[i].Bare() == c
    ensures forall c :: c in PrefixedNames(refs) <==> exists i :: 0 <= i < |refs| && refs[i].Prefixed() == c
    decreases |refs|
  {
    if refs != [] {
      var init := refs[..|refs| - 1];
      LabelsOfRefs(init);
      assert forall i :: 0 <= i < |init| ==> init[i] == refs[i];
    }
  }

  /**
   * No feature's bare label is also some feature's prefixed label, so copying
   * into bare columns never overwrites a prefixed one.
   */
  predicate NoLabelClash(refs: seq<FeatureRef>)
  {
    forall i, j :: 0 <= i < |refs| && 0 <= j < |refs| ==> refs[i].Bare() != refs[j].Prefixed()
  }
}
