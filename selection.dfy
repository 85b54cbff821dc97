/**
 * The clients' selection map `self.checkboxes`: a dictionary from a file's
 * path to its checkbox, kept in insertion order. Only each checkbox's state
 * matters here, so the dictionary is its key order plus a map to the state
 * (`checkbox.get() == 1`).
 */
module Selection {

  predicate Distinct(s: seq<string>)
  {
    forall i, j :: 0 <= i < j < |s| ==> s[i] != s[j]
  }

  /** The key order after `d[key] = v`: a new key goes last, an existing one keeps its place. */
  function Registered(order: seq<string>, key: string): seq<string>
  {
    if key in order then order else order + [key]
  }

  /** The key order after assigning `keys` one after the other. */
  function RegisteredAll(order: seq<string>, keys: seq<string>): seq<string>
    decreases |keys|
  {
    if keys == [] then order else RegisteredAll(Registered(order, keys[0]), keys[1..])
  }

  lemma RegisteredMembers(order: seq<string>, key: string)
    ensures Distinct(order) ==> Distinct(Registered(order, key))
    ensures forall k :: k in Registered(order, key) <==> k in order || k == key
  {
  }

  /** Assigning keys keeps the order free of repeats and holds exactly the old and the new keys. */
  lemma {:induction false} RegisteredAllMembers(order: seq<string>, keys: seq<string>)
    ensures Distinct(order) ==> Distinct(RegisteredAll(order, keys))
    ensures forall k :: k in RegisteredAll(order, keys) <==> k in order || k in keys
    decreases |keys|
  {
    if keys != [] {
      RegisteredMembers(order, keys[0]);
      RegisteredAllMembers(Registered(order, keys[0]), keys[1..]);
      assert keys == [keys[0]] + keys[1..];
    }
  }

  /** Assigning distinct new keys appends them in order. */
  lemma {:induction false} RegisteredAllAppends(order: seq<string>, keys: seq<string>)
    requires Distinct(order + keys)
    ensures RegisteredAll(order, keys) == order + keys
    decreases |keys|
  {
    if keys != [] {
      assert keys[0] == (order + keys)[|order|];
      forall i | 0 <= i < |order| ensures order[i] != keys[0] {
        assert order[i] == (order + keys)[i];
      }
      assert (order + [keys[0]]) + keys[1..] == order + keys;
      RegisteredAllAppends(order + [keys[0]], keys[1..]);
    }
  }

  lemma {:induction false} RegisteredAllConcat(order: seq<string>, a: seq<string>, b: seq<string>)
    ensures RegisteredAll(order, a + b) == RegisteredAll(RegisteredAll(order, a), b)
    decreases |a|
  {
    if a != [] {
      assert (a + b)[1..] == a[1..] + b;
      RegisteredAllConcat(Registered(order, a[0]), a[1..], b);
    } else {
      assert a + b == b;
    }
  }

  lemma RegisteredAllOne(order: seq<string>, key: string)
    ensures RegisteredAll(order, [key]) == Registered(order, key)
  {
    assert [key][1..] == [];
  }

  /** Every key of `keys` in the state `v`. */
  function AllAs(keys: seq<string>, v: bool): map<string, bool>
  {
    map k | k in keys :: v
  }

  lemma AllAsMembers(keys: seq<string>, v: bool)
    ensures forall k :: k in AllAs(keys, v) <==> k in keys
    ensures forall k :: k in AllAs(keys, v) ==> AllAs(keys, v)[k] == v
  {
  }

  /** Fresh checkboxes for `a`, then for `b`, are fresh checkboxes for `a + b`. */
  lemma UncheckedConcat(checked: map<string, bool>, a: seq<string>, b: seq<string>)
    ensures checked + AllAs(a, false) + AllAs(b, false) == checked + AllAs(a + b, false)
  {
  }

  lemma UncheckedOne(checked: map<string, bool>, key: string)
    ensures checked + AllAs([key], false) == checked[key := false]
  {
  }

  /** Assigning one more key extends the order and the states of the keys assigned so far. */
  lemma PutStep(order: seq<string>, checked: map<string, bool>, keys: seq<string>, i: nat)
    requires i < |keys|
    ensures RegisteredAll(order, keys[..i + 1]) == Registered(RegisteredAll(order, keys[..i]), keys[i])
    ensures checked + AllAs(keys[..i + 1], false) == (checked + AllAs(keys[..i], false))[keys[i] := false]
  {
    assert keys[..i + 1] == keys[..i] + [keys[i]];
    RegisteredAllConcat(order, keys[..i], [keys[i]]);
    RegisteredAllOne(RegisteredAll(order, keys[..i]), keys[i]);
    UncheckedConcat(checked, keys[..i], [keys[i]]);
    UncheckedOne(checked + AllAs(keys[..i], false), keys[i]);
  }

  /** `[name for name, box in checkboxes.items() if box.get() == 1]` */
  function SelectedKeys(order: seq<string>, checked: map<string, bool>): (r: seq<string>)
    ensures |r| <= |order|
    ensures forall k :: k in r <==> k in order && k in checked && checked[k]
    ensures Distinct(order) ==> Distinct(r)
    decreases |order|
  {
    if order == [] then []
    else
      var rest := SelectedKeys(order[1..], checked);
      var k := order[0];
      if k in checked && checked[k] then [k] + rest else rest
  }

  /** The positions from `i` on in `order` of the ticked keys, in increasing order. */
  function TickedFrom(order: seq<string>, checked: map<string, bool>, i: nat): seq<nat>
    requires i <= |order|
    decreases |order| - i
  {
    if i == |order| then []
    else (if order[i] in checked && checked[order[i]] then [i] else []) + TickedFrom(order, checked, i + 1)
  }

  /** The ticked positions from `i` on lie in `order[i..]` and increase. */
  lemma {:induction false} TickedFromIncrease(order: seq<string>, checked: map<string, bool>, i: nat)
    requires i <= |order|
    ensures forall k :: 0 <= k < |TickedFrom(order, checked, i)| ==>
      i <= TickedFrom(order, checked, i)[k] < |order|
    ensures forall k, l :: 0 <= k < l < |TickedFrom(order, checked, i)| ==>
      TickedFrom(order, checked, i)[k] < TickedFrom(order, checked, i)[l]
    decreases |order| - i
  {
    if i < |order| {
      TickedFromIncrease(order, checked, i + 1);
      var p' := TickedFrom(order, checked, i + 1);
      var here: seq<nat> := if order[i] in checked && checked[order[i]] then [i] else [];
      var p := here + p';
      assert TickedFrom(order, checked, i) == p;
      forall k | 0 <= k < |p| ensures i <= p[k] < |order| {
        if k < |here| {
          assert p[k] == i;
        } else {
          assert p[k] == p'[k - |here|];
        }
      }
      forall k, l | 0 <= k < l < |p| ensures p[k] < p[l] {
        assert p[l] == p'[l - |here|] && i + 1 <= p'[l - |here|];
        if k < |here| {
          assert p[k] == i;
        } else {
          assert p[k] == p'[k - |here|];
        }
      }
    }
  }

  /** Every ticked position from `i` on is listed. */
  lemma {:induction false} TickedFromComplete(order: seq<string>, checked: map<string, bool>, i: nat)
    requires i <= |order|
    ensures forall j :: i <= j < |order| && order[j] in checked && checked[order[j]] ==>
      j in TickedFrom(order, checked, i)
    decreases |order| - i
  {
    if i < |order| {
      TickedFromComplete(order, checked, i + 1);
    }
  }

  /** The selection from position `i` on holds the keys at the ticked positions, one for one. */
  lemma {:induction false} SelectedFromTicked(order: seq<string>, checked: map<string, bool>, i: nat)
    requires i <= |order|
    ensures var r := SelectedKeys(order[i..], checked);
      var p := TickedFrom(order, checked, i);
      && |p| == |r|
      && forall k :: 0 <= k < |p| ==> p[k] < |order| && r[k] == order[p[k]]
    decreases |order| - i
  {
    if i < |order| {
      SelectedFromTicked(order, checked, i + 1);
      assert order[i..][0] == order[i];
      assert order[i..][1..] == order[i + 1..];
    }
  }

  /** The whole selection is `order` filtered by the states, in order. */
  lemma SelectedKeysFilter(order: seq<string>, checked: map<string, bool>)
    ensures var r := SelectedKeys(order, checked);
      var p := TickedFrom(order, checked, 0);
      && |p| == |r|
      && (forall k :: 0 <= k < |p| ==> p[k] < |order| && r[k] == order[p[k]])
      && (forall k, l :: 0 <= k < l < |p| ==> p[k] < p[l])
      && (forall j :: 0 <= j < |order| && order[j] in checked && checked[order[j]] ==> j in p)
  {
    assert order[0..] == order;
    SelectedFromTicked(order, checked, 0);
    TickedFromIncrease(order, checked, 0);
    TickedFromComplete(order, checked, 0);
  }

  /** With every checkbox ticked, the selection is every key, in order. */
  lemma {:induction false} AllSelected(order: seq<string>)
    ensures SelectedKeys(order, AllAs(order, true)) == order
  {
    var all := AllAs(order, true);
    var i := |order|;
    while i > 0
      invariant 0 <= i <= |order|
      invariant SelectedKeys(order[i..], all) == order[i..]
    {
      i := i - 1;
      assert order[i..][1..] == order[i + 1..];
    }
  }

  /** With every checkbox cleared, nothing is selected. */
  lemma {:induction false} NoneSelected(order: seq<string>)
    ensures SelectedKeys(order, AllAs(order, false)) == []
  {
    var none := AllAs(order, false);
    var i := |order|;
    while i > 0
      invariant 0 <= i <= |order|
      invariant SelectedKeys(order[i..], none) == []
    {
      i := i - 1;
      assert order[i..][1..] == order[i + 1..];
    }
  }

  /** The dictionary of checkboxes, updated in place by both clients. */
  class CheckboxMap {
    /** The keys in insertion order. */
    var order: seq<string>
    /** Each key's checkbox state. */
    var checked: map<string, bool>

    ghost predicate Valid()
      reads this
    {
      Distinct(order) && forall k :: k in checked <==> k in order
    }

    constructor()
      ensures Valid() && order == [] && checked == map[]
    {
      order := [];
      checked := map[];
    }

    /** `checkboxes.clear()` */
    method Clear()
      modifies this
      ensures Valid() && order == [] && checked == map[]
    {
      order := [];
      checked := map[];
    }

    /** `checkboxes[key] = CTkCheckBox(...)`: a new checkbox starts unchecked. */
    method Put(key: string)
      requires Valid()
      modifies this
      ensures Valid()
      ensures order == Registered(old(order), key)
      ensures checked == old(checked)[key := false]
    {
      if key !in order {
        order := order + [key];
      }
      checked := checked[key := false];
    }

    /** `for key in keys: checkboxes[key] = CTkCheckBox(...)` */
    method PutAll(keys: seq<string>)
      requires Valid()
      modifies this
      ensures Valid()
      ensures order == RegisteredAll(old(order), keys)
      ensures checked == old(checked) + AllAs(keys, false)
    {
      for i := 0 to |keys|
        invariant Valid()
        invariant order == RegisteredAll(old(order), keys[..i])
        invariant checked == old(checked) + AllAs(keys[..i], false)
      {
        Put(keys[i]);
        PutStep(old(order), old(checked), keys, i);
      }
      assert keys[..|keys|] == keys;
    }

    /** `for box in checkboxes.values(): box.select() if v else box.deselect()` */
    method SetAll(v: bool)
      requires Valid()
      modifies this
      ensures Valid()
      ensures order == old(order)
      ensures checked == AllAs(order, v)
    {
      var i := 0;
      while i < |order|
        invariant 0 <= i <= |order|
        invariant order == old(order)
        invariant forall k :: k in checked <==> k in order
        invariant forall j :: 0 <= j < i ==> checked[order[j]] == v
        invariant forall j :: i <= j < |order| ==> checked[order[j]] == old(checked)[order[j]]
      {
        checked := checked[order[i] := v];
        i := i + 1;
      }
    }
  }
}
