/**
 * Filling a record from a label tree (`extract_from_labels`, main.py:191-206).
 *
 * The labels are visited depth first, a label before its children and its
 * children before its next sibling. A label whose name the label map knows
 * writes the first of its values that cleans to something other than `N/A`
 * into the mapped field; a later write to the same field wins.
 */
module Labels {
  import opened Wrappers
  import opened Documents
  import FieldValue

  // ---------------------------------------------------------------------
  // Specification

  /** The cleaned values of one label that count as present, in order. */
  function ValidValues(values: seq<string>): seq<string> {
    if values == [] then []
    else
      var value := FieldValue.GetFieldValue(values[0]);
      var rest := ValidValues(values[1..]);
      if value != "" && value != FieldValue.NA then [value] + rest else rest
  }

  /** `label` writes into field `key`. */
  predicate Writes(node: Label, labelMap: map<string, string>, key: string) {
    node.name in labelMap && labelMap[node.name] == key && node.values != [] && ValidValues(node.values) != []
  }

  /** The effect of one label on the record, its children aside. */
  function Apply(fields: Record, node: Label, labelMap: map<string, string>): Record {
    if node.name in labelMap && node.values != [] && ValidValues(node.values) != [] then
      fields[labelMap[node.name] := ValidValues(node.values)[0]]
    else fields
  }

  /** The recursive walk: each label, then its children, then the following labels. */
  function Walk(fields: Record, labels: seq<Label>, labelMap: map<string, string>): Record
    decreases labels
  {
    if labels == [] then fields
    else Walk(Walk(Apply(fields, labels[0], labelMap), labels[0].children, labelMap), labels[1..], labelMap)
  }

  /** The labels of a forest in pre-order. */
  function Preorder(labels: seq<Label>): seq<Label>
    decreases labels
  {
    if labels == [] then [] else [labels[0]] + Preorder(labels[0].children) + Preorder(labels[1..])
  }

  /** Applying a flat sequence of labels one after the other. */
  function Replay(fields: Record, labels: seq<Label>, labelMap: map<string, string>): Record
    decreases labels
  {
    if labels == [] then fields else Replay(Apply(fields, labels[0], labelMap), labels[1..], labelMap)
  }

  // ---------------------------------------------------------------------
  // The walk is a replay of the pre-order sequence

  lemma {:induction false} ReplayAppend(fields: Record, a: seq<Label>, b: seq<Label>, labelMap: map<string, string>)
    ensures Replay(fields, a + b, labelMap) == Replay(Replay(fields, a, labelMap), b, labelMap)
    decreases a
  {
    if a != [] {
      assert (a + b)[0] == a[0] && (a + b)[1..] == a[1..] + b;
      ReplayAppend(Apply(fields, a[0], labelMap), a[1..], b, labelMap);
    } else {
      assert a + b == b;
    }
  }

  /** Walking the tree is replaying its labels in pre-order. */
  lemma {:induction false} WalkIsPreorderReplay(fields: Record, labels: seq<Label>, labelMap: map<string, string>)
    ensures Walk(fields, labels, labelMap) == Replay(fields, Preorder(labels), labelMap)
    decreases labels
  {
    if labels != [] {
      var l := labels[0];
      var applied := Apply(fields, l, labelMap);
      WalkIsPreorderReplay(applied, l.children, labelMap);
      WalkIsPreorderReplay(Walk(applied, l.children, labelMap), labels[1..], labelMap);
      ReplayAppend(applied, Preorder(l.children), Preorder(labels[1..]), labelMap);
      assert Preorder(labels) == [l] + (Preorder(l.children) + Preorder(labels[1..]));
    }
  }

  // ---------------------------------------------------------------------
  // Last writer wins

  /** The last label to write a field decides its value. */
  lemma {:induction false} ReplayLastWriter(fields: Record, labels: seq<Label>, labelMap: map<string, string>, key: string, i: nat)
    requires i < |labels| && Writes(labels[i], labelMap, key)
    requires forall j | i < j < |labels| :: !Writes(labels[j], labelMap, key)
    ensures key in Replay(fields, labels, labelMap)
    ensures Replay(fields, labels, labelMap)[key] == ValidValues(labels[i].values)[0]
    decreases labels
  {
    if i == 0 {
      ReplayUntouched(Apply(fields, labels[0], labelMap), labels[1..], labelMap, key);
    } else {
      ReplayLastWriter(Apply(fields, labels[0], labelMap), labels[1..], labelMap, key, i - 1);
    }
  }

  /** A field no label writes keeps its presence and its value. */
  lemma {:induction false} ReplayUntouched(fields: Record, labels: seq<Label>, labelMap: map<string, string>, key: string)
    requires forall j | 0 <= j < |labels| :: !Writes(labels[j], labelMap, key)
    ensures key in Replay(fields, labels, labelMap) <==> key in fields
    ensures key in fields ==> Replay(fields, labels, labelMap)[key] == fields[key]
    decreases labels
  {
    if labels != [] {
      assert !Writes(labels[0], labelMap, key);
      ReplayUntouched(Apply(fields, labels[0], labelMap), labels[1..], labelMap, key);
    }
  }

  /** Only fields in the label map's range can change. */
  lemma OnlyMappedFieldsChange(fields: Record, labels: seq<Label>, labelMap: map<string, string>, key: string)
    requires key !in labelMap.Values
    ensures key in Walk(fields, labels, labelMap) <==> key in fields
    ensures key in fields ==> Walk(fields, labels, labelMap)[key] == fields[key]
  {
    WalkIsPreorderReplay(fields, labels, labelMap);
    var flat := Preorder(labels);
    forall j | 0 <= j < |flat| ensures !Writes(flat[j], labelMap, key) {
      if flat[j].name in labelMap {
        assert labelMap[flat[j].name] in labelMap.Values;
      }
    }
    ReplayUntouched(fields, flat, labelMap, key);
  }

  /** The walk never removes a field. */
  lemma {:induction false} ReplayKeepsKeys(fields: Record, labels: seq<Label>, labelMap: map<string, string>)
    ensures fields.Keys <= Replay(fields, labels, labelMap).Keys
    decreases labels
  {
    if labels != [] {
      ReplayKeepsKeys(Apply(fields, labels[0], labelMap), labels[1..], labelMap);
    }
  }

  // ---------------------------------------------------------------------
  // Which value a label writes

  /** A label whose values all clean to `N/A` writes nothing. */
  lemma {:induction false} BlankValuesWriteNothing(values: seq<string>)
    requires forall i | 0 <= i < |values| :: FieldValue.GetFieldValue(values[i]) == FieldValue.NA
    ensures ValidValues(values) == []
  {
    if values != [] {
      BlankValuesWriteNothing(values[1..]);
    }
  }

  /** The value written is the first one that does not clean to `N/A`, cleaned. */
  lemma {:induction false} FirstValidValue(values: seq<string>, i: nat)
    requires i < |values| && FieldValue.GetFieldValue(values[i]) != FieldValue.NA
    requires forall j | 0 <= j < i :: FieldValue.GetFieldValue(values[j]) == FieldValue.NA
    ensures ValidValues(values) != [] && ValidValues(values)[0] == FieldValue.GetFieldValue(values[i])
  {
    if i > 0 {
      assert ValidValues(values) == ValidValues(values[1..]) by {
        assert FieldValue.GetFieldValue(values[0]) == FieldValue.NA;
      }
      assert forall j | 0 <= j < i - 1 :: FieldValue.GetFieldValue(values[1..][j]) == FieldValue.NA by {
        forall j | 0 <= j < i - 1 ensures FieldValue.GetFieldValue(values[1..][j]) == FieldValue.NA {
          assert values[1..][j] == values[j + 1];
        }
      }
      FirstValidValue(values[1..], i - 1);
      assert values[1..][i - 1] == values[i];
    } else {
      var value := FieldValue.GetFieldValue(values[0]);
      assert ValidValues(values) == [value] + ValidValues(values[1..]) by {
        assert value != "" && value != FieldValue.NA;
      }
      assert ([value] + ValidValues(values[1..]))[0] == value;
    }
  }

  /**
   * A child that writes a field overrides its parent: once some label below
   * `node` writes `key`, the value `label` itself would write is lost.
   */
  lemma ChildOverridesParent(fields: Record, node: Label, labelMap: map<string, string>, key: string)
    requires exists j | 0 <= j < |Preorder(node.children)| :: Writes(Preorder(node.children)[j], labelMap, key)
    ensures key in Walk(fields, [node], labelMap) && key in Walk(map[], node.children, labelMap)
    ensures Walk(fields, [node], labelMap)[key] == Walk(map[], node.children, labelMap)[key]
  {
    var flat := Preorder(node.children);
    var writes := (l: Label) => Writes(l, labelMap, key);
    var i := LastIndex(flat, writes);
    assert Walk(fields, [node], labelMap) == Walk(Apply(fields, node, labelMap), node.children, labelMap) by {
      assert [node][1..] == [];
    }
    WalkIsPreorderReplay(Apply(fields, node, labelMap), node.children, labelMap);
    WalkIsPreorderReplay(map[], node.children, labelMap);
    ReplayLastWriter(Apply(fields, node, labelMap), flat, labelMap, key, i);
    ReplayLastWriter(map[], flat, labelMap, key, i);
  }

  /** The position of the last element satisfying `p` in a sequence that has one. */
  lemma {:induction false} LastIndex<T>(xs: seq<T>, p: T -> bool) returns (i: nat)
    requires exists j | 0 <= j < |xs| :: p(xs[j])
    ensures i < |xs| && p(xs[i])
    ensures forall j | i < j < |xs| :: !p(xs[j])
    decreases |xs|
  {
    var n := |xs|;
    if p(xs[n - 1]) {
      i := n - 1;
    } else {
      var init := xs[..n - 1];
      assert exists j | 0 <= j < |init| :: p(init[j]) by {
        var j :| 0 <= j < n && p(xs[j]);
        assert j < n - 1 && init[j] == xs[j];
      }
      i := LastIndex(init, p);
      assert xs[i] == init[i];
      forall m | i < m < n ensures !p(xs[m]) {
        if m < n - 1 {
          assert xs[m] == init[m];
        }
      }
    }
  }

  // ---------------------------------------------------------------------
  // The imperative walk

  /** `extract_from_labels`: writes into `base` in place, recursing into child labels. */
  method ExtractFromLabels(labels: seq<Label>, labelMap: map<string, string>, base: BaseData)
    modifies base
    ensures base.fields == Walk(old(base.fields), labels, labelMap)
    decreases labels
  {
    var i := 0;
    while i < |labels|
      invariant 0 <= i <= |labels|
      invariant Walk(base.fields, labels[i..], labelMap) == Walk(old(base.fields), labels, labelMap)
    {
      var node := labels[i];
      ghost var before := base.fields;
      if node.name in labelMap && node.values != [] {
        var valid: seq<string> := [];
        var j := 0;
        while j < |node.values|
          invariant 0 <= j <= |node.values|
          invariant valid + ValidValues(node.values[j..]) == ValidValues(node.values)
        {
          var value := FieldValue.GetFieldValue(node.values[j]);
          assert node.values[j..][1..] == node.values[j + 1..];
          if value != "" && value != FieldValue.NA {
            valid := valid + [value];
          }
          j := j + 1;
        }
        assert node.values[j..] == [];
        if valid != [] {
          base.fields := base.fields[labelMap[node.name] := valid[0]];
        }
      }
      assert base.fields == Apply(before, node, labelMap);
      if node.children != [] {
        ExtractFromLabels(node.children, labelMap, base);
      }
      assert labels[i..][1..] == labels[i + 1..];
      i := i + 1;
    }
  }
}
