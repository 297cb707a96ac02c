/** merge_raw_metadata and the change test after it
    (aviation/aviation_identity_governance.py), on dictionary objects.

    The merge copies the outer dictionary but updates inner dictionaries in place,
    so the copy and the original share them when they are compared.
 */
module RawMetadata {
  import opened Common

  class Inner {
    var entries: map<string, string>

    constructor (entries: map<string, string>)
      ensures this.entries == entries
    {
      this.entries := entries;
    }
  }

  datatype Value = Scalar(text: string) | Mapping(ref: Inner)

  class Outer {
    var entries: map<string, Value>

    constructor (entries: map<string, Value>)
      ensures this.entries == entries
    {
      this.entries := entries;
    }
  }

  /** One item of the patch; None is passed over. */
  datatype Item = Item(key: string, value: Option<Value>)

  function Inners(m: map<string, Value>): set<Inner> {
    set k | k in m && m[k].Mapping? :: m[k].ref
  }

  /** Python's == on two values, and on two dictionaries. */
  predicate SameValue(v: Value, w: Value)
    reads if v.Mapping? then {v.ref} else {}, if w.Mapping? then {w.ref} else {}
  {
    match (v, w)
    case (Scalar(a), Scalar(b)) => a == b
    case (Mapping(i), Mapping(j)) => i.entries == j.entries
    case _ => false
  }

  predicate SameContent(a: Outer, b: Outer)
    reads a, b, Inners(a.entries), Inners(b.entries)
  {
    a.entries.Keys == b.entries.Keys && forall k | k in a.entries :: SameValue(a.entries[k], b.entries[k])
  }

  predicate BothMappings(m: map<string, Value>, item: Item) {
    item.value.Some? && item.value.value.Mapping? && item.key in m && m[item.key].Mapping?
  }

  /** Different keys lead to different inner dictionaries, and the patch has its own. */
  ghost predicate Unshared(m: map<string, Value>, patch: seq<Item>) {
    && (forall j, k | j in m && k in m && m[j].Mapping? && m[k].Mapping? && j != k :: m[j].ref != m[k].ref)
    && (forall n | 0 <= n < |patch| && patch[n].value.Some? && patch[n].value.value.Mapping? ::
          patch[n].value.value.ref !in Inners(m))
    && (forall i, j | 0 <= i < j < |patch| :: patch[i].key != patch[j].key)
  }

  /** What the merged outer dictionary holds: the old references where both sides
      are mappings, the patch's values elsewhere. */
  function MergedOuter(m: map<string, Value>, patch: seq<Item>): map<string, Value> {
    if patch == [] then m
    else
      var base, item := MergedOuter(m, patch[..|patch| - 1]), patch[|patch| - 1];
      if item.value.None? || BothMappings(base, item) then base else base[item.key := item.value.value]
  }

  lemma {:induction false} UntouchedKeys(m: map<string, Value>, patch: seq<Item>, key: string)
    requires forall n | 0 <= n < |patch| :: patch[n].key != key
    ensures key in MergedOuter(m, patch) <==> key in m
    ensures key in m ==> MergedOuter(m, patch)[key] == m[key]
    decreases |patch|
  {
    if patch != [] {
      UntouchedKeys(m, patch[..|patch| - 1], key);
    }
  }

  /** What the merged dictionary holds under each key of the patch. */
  lemma {:induction false} MergedAt(m: map<string, Value>, patch: seq<Item>, n: nat)
    requires n < |patch| && forall i, j | 0 <= i < j < |patch| :: patch[i].key != patch[j].key
    ensures var r, key, value := MergedOuter(m, patch), patch[n].key, patch[n].value;
            if value.None? || (value.value.Mapping? && key in m && m[key].Mapping?)
            then (key in r <==> key in m) && (key in m ==> r[key] == m[key])
            else key in r && r[key] == value.value
    decreases |patch|
  {
    var pre := patch[..|patch| - 1];
    if n < |pre| {
      assert pre[n] == patch[n];
      MergedAt(m, pre, n);
    } else {
      UntouchedKeys(m, pre, patch[n].key);
    }
  }

  /** merge_raw_metadata. */
  method MergeRawMetadata(existing: Outer, patch: seq<Item>) returns (base: Outer)
    requires Unshared(existing.entries, patch)
    modifies Inners(existing.entries)
    ensures fresh(base) && base.entries == MergedOuter(existing.entries, patch)
    ensures forall n | 0 <= n < |patch| && BothMappings(existing.entries, patch[n]) ::
              var i := existing.entries[patch[n].key].ref;
              i.entries == old(i.entries) + old(patch[n].value.value.ref.entries)
    ensures forall n | 0 <= n < |patch| && patch[n].value.Some? && patch[n].value.value.Mapping? ::
              patch[n].value.value.ref.entries == old(patch[n].value.value.ref.entries)
  {
    base := new Outer(existing.entries);
    ghost var m := existing.entries;
    for n := 0 to |patch|
      invariant existing.entries == m && base.entries == MergedOuter(m, patch[..n])
      invariant forall p | 0 <= p < n && BothMappings(m, patch[p]) ::
                  m[patch[p].key].ref.entries
                  == old(m[patch[p].key].ref.entries) + old(patch[p].value.value.ref.entries)
      invariant forall p | n <= p < |patch| && BothMappings(m, patch[p]) ::
                  m[patch[p].key].ref.entries == old(m[patch[p].key].ref.entries)
      invariant forall p | 0 <= p < |patch| && patch[p].value.Some? && patch[p].value.value.Mapping? ::
                  patch[p].value.value.ref.entries == old(patch[p].value.value.ref.entries)
    {
      assert patch[..n + 1][..n] == patch[..n];
      var item := patch[n];
      UntouchedKeys(m, patch[..n], item.key);
      if item.value.Some? {
        var v := item.value.value;
        if item.key in base.entries && base.entries[item.key].Mapping? && v.Mapping? {
          var prev := base.entries[item.key].ref;
          assert BothMappings(m, item) && prev == m[item.key].ref;
          prev.entries := prev.entries + v.ref.entries;
        } else {
          base.entries := base.entries[item.key := v];
        }
      }
    }
    assert patch[..|patch|] == patch;
  }

  /** The change test of the airline merge, for a patch with one mapping under one
      key: it fires exactly when the row held no mapping there.  When it held one,
      its content is replaced key by key without the test noticing. */
  method MergeAndTest(existing: Outer, key: string, patch: Inner) returns (changed: bool, merged: Outer)
    requires Unshared(existing.entries, [Item(key, Some(Mapping(patch)))])
    modifies Inners(existing.entries)
    ensures changed <==> !(key in existing.entries && existing.entries[key].Mapping?)
    ensures !changed ==> existing.entries[key].ref.entries == old(existing.entries[key].ref.entries) + patch.entries
    ensures patch.entries == old(patch.entries) && existing.entries == old(existing.entries)
  {
    var item := Item(key, Some(Mapping(patch)));
    merged := MergeRawMetadata(existing, [item]);
    assert [item][..0] == [] && [item][0] == item;
    assert merged.entries == if BothMappings(existing.entries, item) then existing.entries
                             else existing.entries[key := Mapping(patch)];
    changed := !SameContent(merged, existing);
  }
}
