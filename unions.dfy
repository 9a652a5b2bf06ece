/** `uniqueUnions`: the union reducer. It keys the members by their `kind` in
    an insertion-ordered map (a later member of a kind overwrites the earlier
    one in the slot that kind already holds), then returns the FIRST member
    when only one kind is present and otherwise a union of the map's values.
    The map is an association list here: a sequence of validators whose kinds
    are pairwise distinct, in the order the kinds were first inserted. */
module Unions {
  import opened ConvexValidators

  /** The kinds present in a list of validators. */
  function Kinds(s: seq<Validator>): set<Kind>
  {
    set i | 0 <= i < |s| :: KindOf(s[i])
  }

  predicate DistinctKinds(s: seq<Validator>)
  {
    forall i, j :: 0 <= i < j < |s| ==> KindOf(s[i]) != KindOf(s[j])
  }

  /** `Map.prototype.set(kind, m)` on the association list: a kind already
      present keeps its position and now holds `m`; a new kind is appended. */
  function SetByKind(slots: seq<Validator>, m: Validator): (r: seq<Validator>)
    requires DistinctKinds(slots)
    ensures DistinctKinds(r)
    ensures Kinds(r) == Kinds(slots) + {KindOf(m)}
    ensures KindOf(m) !in Kinds(slots) ==> r == slots + [m]
    ensures KindOf(m) in Kinds(slots) ==>
      |r| == |slots| &&
      forall j :: 0 <= j < |r| ==> r[j] == (if KindOf(slots[j]) == KindOf(m) then m else slots[j])
  {
    if slots == [] then
      KindsCons([m]);
      assert Kinds([m][1..]) == {};
      [m]
    else if KindOf(slots[0]) == KindOf(m) then
      assert forall j :: 1 <= j < |slots| ==> KindOf(slots[j]) != KindOf(m);
      assert Kinds(slots) == {KindOf(m)} + Kinds(slots[1..]) by {
        KindsCons(slots);
      }
      var r := [m] + slots[1..];
      assert Kinds(r) == {KindOf(m)} + Kinds(slots[1..]) by {
        KindsCons(r);
      }
      r
    else
      var tail := SetByKind(slots[1..], m);
      var r := [slots[0]] + tail;
      KindsCons(slots);
      KindsCons(r);
      assert KindOf(slots[0]) !in Kinds(slots[1..]);
      r
  }

  lemma KindsCons(s: seq<Validator>)
    requires s != []
    ensures Kinds(s) == {KindOf(s[0])} + Kinds(s[1..])
  {
    forall k | k in Kinds(s) ensures k in {KindOf(s[0])} + Kinds(s[1..]) {
      var i :| 0 <= i < |s| && KindOf(s[i]) == k;
      if i > 0 {
        assert s[1..][i - 1] == s[i];
      }
    }
    forall k | k in Kinds(s[1..]) ensures k in Kinds(s) {
      var i :| 0 <= i < |s[1..]| && KindOf(s[1..][i]) == k;
      assert s[i + 1] == s[1..][i];
    }
  }

  /** The map's values after inserting every member in order: no kind
      twice, and no more slots than members. */
  function Slots(members: seq<Validator>): (r: seq<Validator>)
    ensures DistinctKinds(r)
    ensures |r| <= |members|
  {
    if members == [] then []
    else
      SetByKind(Slots(members[..|members| - 1]), members[|members| - 1])
  }

  /** `uniqueUnions(...members)` (specification; `UniqueUnionsLoop` computes it
      the way the source does). */
  function UniqueUnions(members: seq<Validator>): (r: Validator)
    ensures SingleKind(members) ==> r == members[0]
    ensures !SingleKind(members) ==>
      r.shape.VUnion? && !r.isOptional && r.shape.members == Slots(members) && |r.shape.members| == |Kinds(members)|
  {
    SlotsShape(members);
    var slots := Slots(members);
    if |slots| == 1 then members[0]
    else Required(VUnion(slots))
  }

  /** The reducer as the source writes it: a loop over the members that
      overwrites by kind, then the size test. */
  method UniqueUnionsLoop(members: seq<Validator>) returns (r: Validator)
    ensures r == UniqueUnions(members)
  {
    var slots: seq<Validator> := [];
    for i := 0 to |members|
      invariant slots == Slots(members[..i])
    {
      assert members[..i + 1][..i] == members[..i];
      slots := SetByKind(slots, members[i]);
    }
    assert members[..|members|] == members;
    assert slots == Slots(members);
    if |slots| == 1 {
      SlotsShape(members);
      r := members[0];
    } else {
      r := Required(VUnion(slots));
    }
  }

  // ---- What the slots hold ----

  /** Index of the first member of kind `k`. */
  function FirstIndexOfKind(ms: seq<Validator>, k: Kind): (r: nat)
    requires k in Kinds(ms)
    ensures r < |ms| && KindOf(ms[r]) == k
    ensures forall i :: 0 <= i < r ==> KindOf(ms[i]) != k
  {
    KindsCons(ms);
    if KindOf(ms[0]) == k then 0 else 1 + FirstIndexOfKind(ms[1..], k)
  }

  /** The last member of kind `k`. */
  function LastOfKind(ms: seq<Validator>, k: Kind): (r: Validator)
    requires k in Kinds(ms)
    ensures KindOf(r) == k
    ensures exists i :: 0 <= i < |ms| && ms[i] == r && forall j :: i < j < |ms| ==> KindOf(ms[j]) != k
  {
    var n := |ms| - 1;
    if KindOf(ms[n]) == k then ms[n]
    else
      KindsSnoc(ms);
      var r := LastOfKind(ms[..n], k);
      var i :| 0 <= i < n && ms[..n][i] == r && forall j :: i < j < n ==> KindOf(ms[..n][j]) != k;
      assert ms[i] == r && forall j :: i < j < |ms| ==> KindOf(ms[j]) != k;
      r
  }

  lemma KindsSnoc(ms: seq<Validator>)
    requires ms != []
    ensures Kinds(ms) == Kinds(ms[..|ms| - 1]) + {KindOf(ms[|ms| - 1])}
  {
    var n := |ms| - 1;
    forall k | k in Kinds(ms) ensures k in Kinds(ms[..n]) + {KindOf(ms[n])} {
      var i :| 0 <= i < |ms| && KindOf(ms[i]) == k;
      if i < n {
        assert ms[..n][i] == ms[i];
      }
    }
    forall k | k in Kinds(ms[..n]) ensures k in Kinds(ms) {
      var i :| 0 <= i < n && KindOf(ms[..n][i]) == k;
      assert ms[i] == ms[..n][i];
    }
  }

  /** The reducer's contract on its slots, as a predicate on the members and
      a candidate list of slots:
      - one slot per distinct kind of the members, and no other;
      - each slot holds the last member of its kind;
      - slots are ordered by the first occurrence of their kind. */
  predicate ReducedFrom(ms: seq<Validator>, slots: seq<Validator>)
  {
    && DistinctKinds(slots)
    && Kinds(slots) == Kinds(ms)
    && (forall j :: 0 <= j < |slots| ==> KindOf(slots[j]) in Kinds(ms) && slots[j] == LastOfKind(ms, KindOf(slots[j])))
    && OrderedByFirst(ms, slots)
  }

  lemma SlotsReduced(ms: seq<Validator>)
    ensures ReducedFrom(ms, Slots(ms))
  {
    SlotsKinds(ms);
    SlotsHoldLast(ms);
    SlotsOrdered(ms);
  }

  lemma {:induction false} SlotsKinds(ms: seq<Validator>)
    ensures DistinctKinds(Slots(ms)) && Kinds(Slots(ms)) == Kinds(ms)
  {
    if ms != [] {
      SlotsKinds(ms[..|ms| - 1]);
      KindsSnoc(ms);
    } else {
      assert Kinds(ms) == {};
    }
  }

  lemma {:induction false} SlotsHoldLast(ms: seq<Validator>)
    ensures forall j :: 0 <= j < |Slots(ms)| ==>
      KindOf(Slots(ms)[j]) in Kinds(ms) && Slots(ms)[j] == LastOfKind(ms, KindOf(Slots(ms)[j]))
  {
    if ms != [] {
      var n := |ms| - 1;
      var pre, m := ms[..n], ms[n];
      SlotsHoldLast(pre);
      SlotsKinds(pre);
      SlotsKinds(ms);
      LastOfKindSnoc(ms);
      var before, s := Slots(pre), Slots(ms);
      forall j | 0 <= j < |s|
        ensures KindOf(s[j]) in Kinds(ms) && s[j] == LastOfKind(ms, KindOf(s[j]))
      {
        assert KindOf(s[j]) in Kinds(s);
        if KindOf(s[j]) != KindOf(m) {
          assert j < |before| && s[j] == before[j];
        }
      }
    }
  }

  /** Slots ordered by the first occurrence of their kinds in `ms`. */
  predicate OrderedByFirst(ms: seq<Validator>, slots: seq<Validator>)
  {
    forall j1, j2 :: 0 <= j1 < j2 < |slots| && KindOf(slots[j1]) in Kinds(ms) && KindOf(slots[j2]) in Kinds(ms) ==>
      FirstIndexOfKind(ms, KindOf(slots[j1])) < FirstIndexOfKind(ms, KindOf(slots[j2]))
  }

  lemma {:induction false} SlotsOrdered(ms: seq<Validator>)
    ensures Kinds(Slots(ms)) == Kinds(ms)
    ensures OrderedByFirst(ms, Slots(ms))
  {
    SlotsKinds(ms);
    if ms != [] {
      SlotsOrdered(ms[..|ms| - 1]);
      SlotsOrderedStep(ms);
    }
  }

  /** One insertion keeps the slots ordered by first occurrence. */
  lemma SlotsOrderedStep(ms: seq<Validator>)
    requires ms != []
    requires Kinds(Slots(ms[..|ms| - 1])) == Kinds(ms[..|ms| - 1])
    requires OrderedByFirst(ms[..|ms| - 1], Slots(ms[..|ms| - 1]))
    ensures OrderedByFirst(ms, Slots(ms))
  {
    var pre, m := ms[..|ms| - 1], ms[|ms| - 1];
    var before, after := Slots(pre), Slots(ms);
    assert after == SetByKind(before, m);
    if KindOf(m) in Kinds(before) {
      forall j | 0 <= j < |after| ensures KindOf(after[j]) == KindOf(before[j]) {
        assert after[j] == (if KindOf(before[j]) == KindOf(m) then m else before[j]);
      }
      OrderedAfterOverwrite(ms, before, after);
    } else {
      OrderedAfterAppend(ms, before);
    }
  }

  /** Overwriting slots with members of the same kinds keeps the order. */
  lemma OrderedAfterOverwrite(ms: seq<Validator>, before: seq<Validator>, after: seq<Validator>)
    requires ms != []
    requires Kinds(before) == Kinds(ms[..|ms| - 1])
    requires OrderedByFirst(ms[..|ms| - 1], before)
    requires |after| == |before|
    requires forall j :: 0 <= j < |after| ==> KindOf(after[j]) == KindOf(before[j])
    ensures OrderedByFirst(ms, after)
  {
    var pre := ms[..|ms| - 1];
    FirstIndexOfKindSnoc(ms);
    forall j1, j2 | 0 <= j1 < j2 < |after| && KindOf(after[j1]) in Kinds(ms) && KindOf(after[j2]) in Kinds(ms)
      ensures FirstIndexOfKind(ms, KindOf(after[j1])) < FirstIndexOfKind(ms, KindOf(after[j2]))
    {
      var k1, k2 := KindOf(before[j1]), KindOf(before[j2]);
      assert k1 in Kinds(before) && k2 in Kinds(before);
      assert FirstIndexOfKind(pre, k1) < FirstIndexOfKind(pre, k2);
    }
  }

  /** A new kind goes last: its first occurrence is the last index, after
      the first occurrence of every earlier kind. */
  lemma OrderedAfterAppend(ms: seq<Validator>, before: seq<Validator>)
    requires ms != []
    requires Kinds(before) == Kinds(ms[..|ms| - 1])
    requires OrderedByFirst(ms[..|ms| - 1], before)
    requires KindOf(ms[|ms| - 1]) !in Kinds(before)
    ensures OrderedByFirst(ms, before + [ms[|ms| - 1]])
  {
    var n := |ms| - 1;
    var pre, after := ms[..n], before + [ms[n]];
    FirstIndexOfKindSnoc(ms);
    forall j1, j2 | 0 <= j1 < j2 < |after| && KindOf(after[j1]) in Kinds(ms) && KindOf(after[j2]) in Kinds(ms)
      ensures FirstIndexOfKind(ms, KindOf(after[j1])) < FirstIndexOfKind(ms, KindOf(after[j2]))
    {
      var k1 := KindOf(before[j1]);
      assert after[j1] == before[j1] && k1 in Kinds(before);
      assert FirstIndexOfKind(ms, k1) == FirstIndexOfKind(pre, k1) < n;
      if j2 < |before| {
        var k2 := KindOf(before[j2]);
        assert after[j2] == before[j2] && k2 in Kinds(before);
        assert FirstIndexOfKind(pre, k1) < FirstIndexOfKind(pre, k2);
      }
    }
  }

  lemma LastOfKindSnoc(ms: seq<Validator>)
    requires ms != []
    ensures forall k :: k in Kinds(ms[..|ms| - 1]) && k != KindOf(ms[|ms| - 1]) ==>
      k in Kinds(ms) && LastOfKind(ms, k) == LastOfKind(ms[..|ms| - 1], k)
    ensures LastOfKind(ms, KindOf(ms[|ms| - 1])) == ms[|ms| - 1]
  {
    KindsSnoc(ms);
  }

  lemma FirstIndexOfKindSnoc(ms: seq<Validator>)
    requires ms != []
    ensures forall k :: k in Kinds(ms[..|ms| - 1]) ==>
      k in Kinds(ms) && FirstIndexOfKind(ms, k) == FirstIndexOfKind(ms[..|ms| - 1], k)
    ensures KindOf(ms[|ms| - 1]) !in Kinds(ms[..|ms| - 1]) ==>
      FirstIndexOfKind(ms, KindOf(ms[|ms| - 1])) == |ms| - 1
  {
    var n := |ms| - 1;
    var pre := ms[..n];
    KindsSnoc(ms);
    forall k | k in Kinds(pre)
      ensures FirstIndexOfKind(ms, k) == FirstIndexOfKind(pre, k)
    {
      var a, b := FirstIndexOfKind(ms, k), FirstIndexOfKind(pre, k);
      assert ms[b] == pre[b];
      assert a <= b;
      assert pre[a] == ms[a];
    }
    var k := KindOf(ms[n]);
    var a := FirstIndexOfKind(ms, k);
    if a < n {
      assert pre[a] == ms[a];
      assert k in Kinds(pre);
    }
  }

  /** Distinct kinds: as many slots as kinds. */
  lemma {:induction false} DistinctKindsCount(s: seq<Validator>)
    requires DistinctKinds(s)
    ensures |Kinds(s)| == |s|
  {
    if s != [] {
      KindsCons(s);
      DistinctKindsCount(s[1..]);
      assert KindOf(s[0]) !in Kinds(s[1..]);
    }
  }

  /** Consequence used by the size test: one slot only when every member has
      the same kind, and then there is a first member. */
  lemma SlotsShape(ms: seq<Validator>)
    ensures |Slots(ms)| == |Kinds(ms)|
    ensures |Slots(ms)| == 1 <==> SingleKind(ms)
  {
    SlotsKinds(ms);
    DistinctKindsCount(Slots(ms));
    OneKind(ms);
  }

  /** Exactly one kind present is the same as a non-empty single-kind list. */
  lemma OneKind(ms: seq<Validator>)
    ensures |Kinds(ms)| == 1 <==> SingleKind(ms)
  {
    if SingleKind(ms) {
      assert Kinds(ms) == {KindOf(ms[0])};
    }
    if |Kinds(ms)| == 1 {
      var k :| k in Kinds(ms);
      assert |Kinds(ms) - {k}| == 0;
      assert Kinds(ms) == {k};
      assert ms != [];
      forall i | 0 <= i < |ms| ensures KindOf(ms[i]) == KindOf(ms[0]) {
        assert KindOf(ms[i]) in Kinds(ms) && KindOf(ms[0]) in Kinds(ms);
      }
    }
  }

  /** At least one member, and all members share one kind. */
  predicate SingleKind(ms: seq<Validator>)
  {
    |ms| > 0 && forall i :: 0 <= i < |ms| ==> KindOf(ms[i]) == KindOf(ms[0])
  }

  /** The reducer's whole contract: a single kind gives back the first member
      itself, not a union; otherwise a "required" union whose members are the
      slots described by `ReducedFrom` (no members for no input). */
  lemma UniqueUnionsSpec(ms: seq<Validator>)
    ensures SingleKind(ms) ==> UniqueUnions(ms) == ms[0]
    ensures !SingleKind(ms) ==>
      && UniqueUnions(ms).shape.VUnion?
      && !UniqueUnions(ms).isOptional
      && ReducedFrom(ms, UniqueUnions(ms).shape.members)
      && |UniqueUnions(ms).shape.members| == |Kinds(ms)|
  {
    SlotsShape(ms);
    SlotsReduced(ms);
  }

  /** `ReducedFrom` pins the slots down completely: two lists of slots that
      both meet it are equal, so it is a full specification of the reducer. */
  lemma ReducedFromUnique(ms: seq<Validator>, a: seq<Validator>, b: seq<Validator>)
    requires ReducedFrom(ms, a) && ReducedFrom(ms, b)
    ensures a == b
  {
    var x, y := FirstIndices(ms, a), FirstIndices(ms, b);
    forall v | v in x ensures v in y {
      var j :| 0 <= j < |x| && x[j] == v;
      var k := KindOf(a[j]);
      assert k in Kinds(b);
      var jb :| 0 <= jb < |b| && KindOf(b[jb]) == k;
      assert y[jb] == v;
    }
    forall v | v in y ensures v in x {
      var j :| 0 <= j < |y| && y[j] == v;
      var k := KindOf(b[j]);
      assert k in Kinds(a);
      var ja :| 0 <= ja < |a| && KindOf(a[ja]) == k;
      assert x[ja] == v;
    }
    IncreasingUnique(x, y);
    forall j | 0 <= j < |a| ensures a[j] == b[j] {
      assert x[j] == y[j];
      assert KindOf(a[j]) == KindOf(ms[x[j]]) == KindOf(b[j]);
    }
  }

  /** For each slot, the index of the first member of its kind. */
  function FirstIndices(ms: seq<Validator>, slots: seq<Validator>): (r: seq<nat>)
    requires ReducedFrom(ms, slots)
    ensures |r| == |slots|
    ensures forall j :: 0 <= j < |r| ==> r[j] == FirstIndexOfKind(ms, KindOf(slots[j]))
    ensures forall i, j :: 0 <= i < j < |r| ==> r[i] < r[j]
  {
    seq(|slots|, j requires 0 <= j < |slots| => FirstIndexOfKind(ms, KindOf(slots[j])))
  }

  /** Two strictly increasing sequences with the same elements are equal. */
  lemma {:induction false} IncreasingUnique(x: seq<int>, y: seq<int>)
    requires forall i, j :: 0 <= i < j < |x| ==> x[i] < x[j]
    requires forall i, j :: 0 <= i < j < |y| ==> y[i] < y[j]
    requires forall v :: v in x <==> v in y
    ensures x == y
  {
    if x != [] {
      assert x[0] in x;
    }
    if y != [] {
      assert y[0] in y;
    }
    if x != [] && y != [] {
      assert x[0] in y && y[0] in x;
      assert x[0] == y[0];
      forall v ensures v in x[1..] <==> v in y[1..] {
        if v in x[1..] {
          assert v != x[0] && v in y;
        }
        if v in y[1..] {
          assert v != y[0] && v in x;
        }
      }
      IncreasingUnique(x[1..], y[1..]);
      assert x == [x[0]] + x[1..];
      assert y == [y[0]] + y[1..];
    }
  }
}
