/** Layers of outputs by key, and lists of changes that are laid over them. A missing key reads as `blank`. */
module Overlays {
  import opened Wrappers

  datatype Change<E> = Change(key: nat, out: E)

  function Read<E>(layer: map<nat, E>, p: nat, blank: E): E {
    if p in layer then layer[p] else blank
  }

  predicate Distinct<E>(changes: seq<Change<E>>) {
    forall i, j :: 0 <= i < j < |changes| ==> changes[i].key != changes[j].key
  }

  /** The layer with the changes made one after the other. */
  function Overlay<E>(layer: map<nat, E>, changes: seq<Change<E>>): (r: map<nat, E>) {
    if changes == [] then layer
    else
      var last := changes[|changes| - 1];
      Overlay(layer, changes[..|changes| - 1])[last.key := last.out]
  }

  /** Distinct changes are all visible, and nothing else changes. */
  lemma {:induction false} OverlayAt<E>(layer: map<nat, E>, changes: seq<Change<E>>, p: nat)
    requires Distinct(changes)
    ensures forall i :: 0 <= i < |changes| && changes[i].key == p ==>
              p in Overlay(layer, changes) && Overlay(layer, changes)[p] == changes[i].out
    ensures (forall i :: 0 <= i < |changes| ==> changes[i].key != p) ==>
              ((p in Overlay(layer, changes) <==> p in layer)
                  && (p in layer ==> Overlay(layer, changes)[p] == layer[p]))
    decreases |changes|
  {
    if changes != [] {
      var before := changes[..|changes| - 1];
      OverlayAt(layer, before, p);
      assert forall i :: 0 <= i < |before| ==> before[i] == changes[i];
    }
  }

  /** Laying the same distinct changes over once more changes nothing. */
  lemma OverlayTwice<E>(layer: map<nat, E>, changes: seq<Change<E>>)
    requires Distinct(changes)
    ensures Overlay(Overlay(layer, changes), changes) == Overlay(layer, changes)
  {
    var once := Overlay(layer, changes);
    var twice := Overlay(once, changes);
    forall p: nat ensures (p in twice <==> p in once) && (p in once ==> twice[p] == once[p]) {
      OverlayAt(layer, changes, p);
      OverlayAt(once, changes, p);
    }
  }

  predicate Ascending(names: seq<nat>) {
    forall i, j :: 0 <= i < j < |names| ==> names[i] < names[j]
  }

  /** A key is written when its output differs from the layer's own, or when it is to be included anyway. */
  predicate Wanted<E(==)>(layer: map<nat, E>, own: map<nat, E>, also: set<nat>, blank: E, p: nat) {
    Read(layer, p, blank) != Read(own, p, blank) || p in also
  }

  /** The changes that lead from one layer to another, in the order of the names. */
  function Changes<E(==)>(names: seq<nat>, layer: map<nat, E>, own: map<nat, E>, also: set<nat>,
                     blank: E): (r: seq<Change<E>>)
    ensures |r| <= |names|
  {
    if names == [] then []
    else
      (if Wanted(layer, own, also, blank, names[0]) then [Change(names[0], Read(layer, names[0], blank))] else [])
      + Changes(names[1..], layer, own, also, blank)
  }

  predicate Mentions<E>(changes: seq<Change<E>>, p: nat) {
    exists i :: 0 <= i < |changes| && changes[i].key == p
  }

  /** Exactly the wanted names are written, once each, with what the layer reads. */
  lemma {:induction false} ChangesAre<E>(names: seq<nat>, layer: map<nat, E>, own: map<nat, E>, also: set<nat>,
                                         blank: E)
    requires Ascending(names)
    ensures var cs := Changes(names, layer, own, also, blank);
            && Distinct(cs)
            && (forall i :: 0 <= i < |cs| ==> cs[i].key in names && cs[i].out == Read(layer, cs[i].key, blank))
            && (forall p :: p in names && Wanted(layer, own, also, blank, p) ==> Mentions(cs, p))
    decreases |names|
  {
    if names != [] {
      var rest := Changes(names[1..], layer, own, also, blank);
      var cs := Changes(names, layer, own, also, blank);
      ChangesAre(names[1..], layer, own, also, blank);
      var k := |cs| - |rest|;
      assert forall i :: 0 <= i < |rest| ==> cs[i + k] == rest[i];
      assert forall i :: k <= i < |cs| ==> cs[i] == rest[i - k];
      SplitNames(names);
      forall p | p in names && Wanted(layer, own, also, blank, p) ensures Mentions(cs, p) {
        if p == names[0] {
          assert cs[0].key == p;
        } else {
          assert p in names[1..] && Mentions(rest, p);
          var i :| 0 <= i < |rest| && rest[i].key == p;
          assert cs[i + k].key == p;
        }
      }
    }
  }

  lemma MentionsJoined<E>(a: seq<Change<E>>, b: seq<Change<E>>, p: nat)
    ensures Mentions(a + b, p) <==> Mentions(a, p) || Mentions(b, p)
  {
    if Mentions(a, p) {
      var i :| 0 <= i < |a| && a[i].key == p;
      assert (a + b)[i].key == p;
    }
    if Mentions(b, p) {
      var i :| 0 <= i < |b| && b[i].key == p;
      assert (a + b)[|a| + i].key == p;
    }
  }

  /** A name is written exactly if the two layers read differently there, or if it is to be written anyway. */
  lemma {:induction false} WrittenWhenDifferent<E>(names: seq<nat>, layer: map<nat, E>, own: map<nat, E>,
                                                   also: set<nat>,
                                                   blank: E, p: nat)
    ensures Mentions(Changes(names, layer, own, also, blank), p) <==>
              && p in names
              && ((if p in layer then layer[p] else blank) != (if p in own then own[p] else blank) || p in also)
    decreases |names|
  {
    if names != [] {
      var rest := Changes(names[1..], layer, own, also, blank);
      var first := if Wanted(layer, own, also, blank, names[0]) then [Change(names[0], Read(layer, names[0], blank))]
          else [];
      WrittenWhenDifferent(names[1..], layer, own, also, blank, p);
      MentionsJoined(first, rest, p);
      assert Mentions(first, p) <==> names[0] == p && Wanted(layer, own, also, blank, p) by {
        if names[0] == p && Wanted(layer, own, also, blank, p) {
          assert first[0].key == p;
        }
      }
      assert p in names <==> p == names[0] || p in names[1..];
    }
  }

  /** Laying the changes over the own layer reads as the other layer. */
  lemma ChangesLead<E>(names: seq<nat>, layer: map<nat, E>, own: map<nat, E>, also: set<nat>, blank: E, p: nat)
    requires Ascending(names) && forall q :: q in layer || q in own ==> q in names
    ensures Read(Overlay(own, Changes(names, layer, own, also, blank)), p, blank) == Read(layer, p, blank)
  {
    var cs := Changes(names, layer, own, also, blank);
    ChangesAre(names, layer, own, also, blank);
    OverlayAt(own, cs, p);
    if Mentions(cs, p) {
      var i :| 0 <= i < |cs| && cs[i].key == p;
      assert cs[i].out == Read(layer, p, blank);
    } else {
      assert forall i :: 0 <= i < |cs| ==> cs[i].key != p;
    }
  }

  /** The names that read differently. */
  function Changed<E(==)>(names: seq<nat>, layer: map<nat, E>, own: map<nat, E>, blank: E): set<nat> {
    set p | p in names && Read(layer, p, blank) != Read(own, p, blank)
  }

  lemma {:induction false} ChangesCount<E>(names: seq<nat>, layer: map<nat, E>, own: map<nat, E>, blank: E)
    requires Ascending(names)
    ensures |Changes(names, layer, own, {}, blank)| == |Changed(names, layer, own, blank)|
    decreases |names|
  {
    if names == [] {
      assert Changed(names, layer, own, blank) == {};
    } else {
      ChangesCount(names[1..], layer, own, blank);
      OneMore(names, layer, own, blank);
    }
  }

  lemma OneMore<E>(names: seq<nat>, layer: map<nat, E>, own: map<nat, E>, blank: E)
    requires Ascending(names) && names != []
    ensures |Changed(names, layer, own, blank)|
         == |Changed(names[1..], layer, own, blank)| + if Wanted(layer, own, {}, blank, names[0]) then 1 else 0
  {
    var p, tail := names[0], names[1..];
    SplitNames(names);
    var rest := Changed(tail, layer, own, blank);
    if Wanted(layer, own, {}, blank, p) {
      assert Changed(names, layer, own, blank) == rest + {p};
    } else {
      assert Changed(names, layer, own, blank) == rest;
    }
  }

  lemma SplitNames(names: seq<nat>)
    requires Ascending(names) && names != []
    ensures names[0] !in names[1..] && forall q :: q in names <==> q == names[0] || q in names[1..]
  {
    assert names == [names[0]] + names[1..];
  }

  function KeysOf<E>(changes: seq<Change<E>>): set<nat> {
    set i | 0 <= i < |changes| :: changes[i].key
  }

  lemma {:induction false} FewKeys<E>(changes: seq<Change<E>>)
    ensures |KeysOf(changes)| <= |changes|
    decreases |changes|
  {
    if changes == [] {
      assert KeysOf(changes) == {};
    } else {
      FewKeys(changes[..|changes| - 1]);
      assert KeysOf(changes) == KeysOf(changes[..|changes| - 1]) + {changes[|changes| - 1].key};
    }
  }

  lemma Subset(a: set<nat>, b: set<nat>)
    requires a <= b
    ensures |a| <= |b|
  {
    assert b == a + (b - a);
  }

  /** Changes that lead to a layer mention every name that reads differently. */
  lemma ChangesNeeded<E>(names: seq<nat>, layer: map<nat, E>, own: map<nat, E>, blank: E, changes: seq<Change<E>>)
    requires Distinct(changes) && forall p :: p in names ==>
            Read(Overlay(own, changes), p, blank) == Read(layer, p, blank)
    ensures |Changed(names, layer, own, blank)| <= |changes|
  {
    forall p | p in Changed(names, layer, own, blank) ensures p in KeysOf(changes) {
      OverlayAt(own, changes, p);
    }
    Subset(Changed(names, layer, own, blank), KeysOf(changes));
    FewKeys(changes);
  }

  // ---------------------------------------------------------------- reading a list of changes

  /** The changes of a list in which some entries may be refused; None if one is, or if two are about one key. */
  function Collect<E>(cs: seq<Option<Change<E>>>): (r: Option<seq<Change<E>>>)
    ensures r.Some? ==> |r.value| == |cs|
  {
    if cs == [] then Some([])
    else
      var before, last := Collect(cs[..|cs| - 1]), cs[|cs| - 1];
      if before.None? || last.None? || last.value.key in KeysOf(before.value) then None
      else Some(before.value + [last.value])
  }

  lemma {:induction false} CollectInOrder<E>(cs: seq<Option<Change<E>>>)
    requires Collect(cs).Some?
    ensures forall i :: 0 <= i < |cs| ==> cs[i] == Some(Collect(cs).value[i])
    decreases |cs|
  {
    if cs != [] {
      CollectInOrder(cs[..|cs| - 1]);
    }
  }

  predicate SameKey<E>(a: Option<Change<E>>, b: Option<Change<E>>) {
    a.Some? && b.Some? && a.value.key == b.value.key
  }

  /** A list is taken exactly if each of its entries is, and no two are about one key. */
  lemma {:induction false} CollectTakes<E>(cs: seq<Option<Change<E>>>)
    ensures Collect(cs).Some? <==>
              (forall i :: 0 <= i < |cs| ==> cs[i].Some?)
                  && (forall i, j :: 0 <= i < j < |cs| ==> !SameKey(cs[i], cs[j]))
    decreases |cs|
  {
    if cs != [] {
      var before, last := cs[..|cs| - 1], |cs| - 1;
      CollectTakes(before);
      assert forall i :: 0 <= i < last ==> before[i] == cs[i];
      if Collect(before).Some? && cs[last].Some? {
        CollectInOrder(before);
        var changes := Collect(before).value;
        if cs[last].value.key in KeysOf(changes) {
          var i :| 0 <= i < |changes| && changes[i].key == cs[last].value.key;
          assert cs[i] == Some(changes[i]) && SameKey(cs[i], cs[last]);
        } else {
          forall i | 0 <= i < last ensures !SameKey(cs[i], cs[last]) {
            assert cs[i] == Some(changes[i]) && changes[i].key in KeysOf(changes);
          }
        }
      }
    }
  }
}
