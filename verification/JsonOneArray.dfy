/**
 Additions and removals in one array, then a replace of one of its elements: exactly when the report is right, whatever the
 array holds.
 */
module JsonOneArray {
  import opened Sequences
  import opened Wrappers
  import opened JsonDocument
  import opened JsonChanges
  import opened JsonFlatPatches
  import opened JsonLimits
  import opened JsonShadowInvariant

  /** The operation adds to, or removes from, the array at c. */
  predicate InArray(op: Op, c: Path) {
    Structural(op) && |op.path| == |c| + 1 && c < op.path
  }

  predicate AllIn(ops: seq<Op>, c: Path) {
    forall op <- ops :: InArray(op, c)
  }

  // ----- where elements come from ------------------------------------------------------------------------------------

  /** An element of the array at first, or one that was added. */
  datatype Origin = Old(i: nat) | New(v: Json)

  function Moved(items: seq<Origin>, op: Op): Option<seq<Origin>>
    requires Structural(op) && op.path != []
  {
    var t := op.path[|op.path| - 1];
    match op
    case Add(_, v) =>
      if t == DASH then Some(items + [New(v)])
      else if t.Num? && t.n <= |items| then Some(Insert(items, t.n, New(v))) else None
    case Remove(_) => if t.Num? && t.n < |items| then Some(RemoveAt(items, t.n)) else None
  }

  /** The origins of the elements of an array of n elements after the operations; None when one of them is an error. */
  function Origins(n: nat, c: Path, ops: seq<Op>): Option<seq<Origin>>
    requires AllIn(ops, c)
  {
    if ops == [] then Some(seq(n, i requires 0 <= i < n => Old(i)))
    else
      assert forall op <- ops[..|ops| - 1] :: op in ops;
      assert InArray(ops[|ops| - 1], c);
      match Origins(n, c, ops[..|ops| - 1])
      case None => None
      case Some(items) => Moved(items, ops[|ops| - 1])
  }

  predicate Within(os: seq<Origin>, n: nat) {
    forall k :: 0 <= k < |os| && os[k].Old? ==> os[k].i < n
  }

  function ValueOf(xs: seq<Json>, o: Origin): Json
    requires o.Old? ==> o.i < |xs|
  {
    match o case Old(i) => xs[i] case New(v) => v
  }

  function Values(xs: seq<Json>, os: seq<Origin>): seq<Json>
    requires Within(os, |xs|)
  {
    seq(|os|, k requires 0 <= k < |os| => ValueOf(xs, os[k]))
  }

  lemma MovedValues(xs: seq<Json>, os: seq<Origin>, op: Op)
    requires Structural(op) && op.path != [] && Within(os, |xs|) && Moved(os, op).Some?
    ensures Within(Moved(os, op).value, |xs|)
    ensures EditHere(Arr(Values(xs, os)), op.path[|op.path| - 1], EditOf(op)) == Some(Arr(Values(xs, Moved(os, op).value)))
  {
    var t := op.path[|op.path| - 1];
    match op
    case Add(_, v) =>
      if t == DASH {
        assert Values(xs, os + [New(v)]) == Values(xs, os) + [v];
      } else {
        assert Values(xs, Insert(os, t.n, New(v))) == Insert(Values(xs, os), t.n, v);
      }
    case Remove(_) => assert Values(xs, RemoveAt(os, t.n)) == RemoveAt(Values(xs, os), t.n);
  }

  /** An edit that can be made at c can be made there from the root. */
  lemma {:induction false} EditAt(d: Json, c: Path, p: Path, e: Edit)
    requires p != [] && Get(d, c).Some? && ApplyEdit(Get(d, c).value, p, e).Some?
    ensures ApplyEdit(d, c + p, e).Some?
    ensures Get(ApplyEdit(d, c + p, e).value, c) == ApplyEdit(Get(d, c).value, p, e)
    decreases c
  {
    if c == [] {
      assert c + p == p;
    } else {
      assert (c + p)[0] == c[0] && (c + p)[1..] == c[1..] + p;
      EditAt(Child(d, c[0]).value, c[1..], p, e);
      EditBelow(d, c, p, e);
    }
  }

  /** Replaying the operations moves the elements of the array as their origins say. */
  lemma {:induction false} ReplayMoves(before: Json, c: Path, xs: seq<Json>, ops: seq<Op>)
    requires AllIn(ops, c) && Get(before, c) == Some(Arr(xs)) && Origins(|xs|, c, ops).Some?
    ensures Within(Origins(|xs|, c, ops).value, |xs|)
    ensures Replay(before, ops).Some?
    ensures Get(Replay(before, ops).value, c) == Some(Arr(Values(xs, Origins(|xs|, c, ops).value)))
  {
    if ops == [] {
      assert Values(xs, Origins(|xs|, c, ops).value) == xs;
    } else {
      var n := |ops| - 1;
      var op := ops[n];
      assert forall o <- ops[..n] :: o in ops;
      ReplayMoves(before, c, xs, ops[..n]);
      var os := Origins(|xs|, c, ops[..n]).value;
      assert op in ops && op.path == c + [op.path[|c|]];
      MovedValues(xs, os, op);
      EditAt(Replay(before, ops[..n]).value, c, [op.path[|c|]], EditOf(op));
    }
  }

  // ----- the patch ---------------------------------------------------------------------------------------------------------

  function ArrayPatch(c: Path, ops: seq<Op>, j: nat, w: Json): seq<Op> {
    ops + [Replace(c + [Num(j)], w)]
  }

  /** The pattern finds the array: it is not the root, no newline hides it, and some operation names a position. */
  predicate Findable(c: Path, ops: seq<Op>)
    requires AllIn(ops, c)
  {
    c != [] && NewlineFree(c) && exists op <- ops :: EndsInDigits(op.path[|c|])
  }

  lemma ContainerIs(c: Path, ops: seq<Op>, j: nat, w: Json)
    requires AllIn(ops, c)
    ensures forall a :: StructuralContainer(ArrayPatch(c, ops, j, w), a) ==> a == c
    ensures Findable(c, ops) ==> StructuralContainer(ArrayPatch(c, ops, j, w), c)
    ensures !Findable(c, ops) && c != [] ==> !StructuralContainer(ArrayPatch(c, ops, j, w), c)
  {
    var patch := ArrayPatch(c, ops, j, w);
    forall op | op in patch && Structural(op)
      ensures op in ops && op.path[..|op.path| - 1] == c && op.path[|op.path| - 1] == op.path[|c|]
    {
    }
    if Findable(c, ops) {
      var op :| op in ops && EndsInDigits(op.path[|c|]);
      assert op in patch && ArrayOf(op.path) == Some(c);
    }
  }

  lemma PatchPrefix(c: Path, ops: seq<Op>, j: nat, w: Json)
    ensures |ArrayPatch(c, ops, j, w)| == |ops| + 1
    ensures ArrayPatch(c, ops, j, w)[..|ops|] == ops
    ensures ArrayPatch(c, ops, j, w)[|ops|] == Replace(c + [Num(j)], w)
  {
  }

  /** What is overwritten: the value that stands at position j after the operations. */
  lemma OverwrittenIs(before: Json, c: Path, xs: seq<Json>, ops: seq<Op>, j: nat, w: Json)
    requires AllIn(ops, c) && Get(before, c) == Some(Arr(xs)) && Origins(|xs|, c, ops).Some?
    requires j < |Origins(|xs|, c, ops).value|
    ensures Within(Origins(|xs|, c, ops).value, |xs|)
    ensures Overwritten(before, ArrayPatch(c, ops, j, w), |ops|) == Some(ValueOf(xs, Origins(|xs|, c, ops).value[j]))
  {
    PatchPrefix(c, ops, j, w);
    ReplayMoves(before, c, xs, ops);
    GetSplit(Replay(before, ops).value, c, [Num(j)]);
  }

  lemma ReportIs(before: Json, lists: Lists, c: Path, ops: seq<Op>, j: nat, w: Json)
    requires ShadowRun(lists, ops).Success?
    ensures Reported(before, lists, ArrayPatch(c, ops, j, w), |ops|)
            == Some(Lookup(before, ShadowRun(lists, ops).value, c + [Num(j)]))
  {
    PatchPrefix(c, ops, j, w);
    var patch := ArrayPatch(c, ops, j, w);
    assert patch[..|patch| - 1] == ops;
  }

  /** A found array is copied, and the report is right. */
  lemma FoundIsRight(before: Json, lists: Lists, c: Path, xs: seq<Json>, ops: seq<Op>, j: nat, w: Json)
    requires AllIn(ops, c) && Findable(c, ops)
    requires Get(before, c) == Some(Arr(xs)) && Origins(|xs|, c, ops).Some? && j < |Origins(|xs|, c, ops).value|
    requires PossibleShadows(before, ArrayPatch(c, ops, j, w), lists)
    ensures Reported(before, lists, ArrayPatch(c, ops, j, w), |ops|) == Overwritten(before, ArrayPatch(c, ops, j, w), |ops|)
  {
    CopyIs(before, lists, c, xs, ops, j, w);
    CopyMoves(c, xs, ops);
    ReportIs(before, lists, c, ops, j, w);
    OverwrittenIs(before, c, xs, ops, j, w);
    LookupIs(before, c, Values(xs, Origins(|xs|, c, ops).value), j);
  }

  /** The copy moves as the array does. */
  lemma {:induction false} CopyMoves(c: Path, xs: seq<Json>, ops: seq<Op>)
    requires AllIn(ops, c) && c != [] && Origins(|xs|, c, ops).Some?
    ensures Within(Origins(|xs|, c, ops).value, |xs|)
    ensures ShadowRun(map[c := xs], ops) == Success(map[c := Values(xs, Origins(|xs|, c, ops).value)])
  {
    if ops == [] {
      assert Values(xs, Origins(|xs|, c, ops).value) == xs;
    } else {
      var n := |ops| - 1;
      assert forall o <- ops[..n] :: o in ops;
      assert ops[n] in ops;
      CopyMoves(c, xs, ops[..n]);
      CopyStep(c, xs, Origins(|xs|, c, ops[..n]).value, ops[n]);
    }
  }

  lemma CopyStep(c: Path, xs: seq<Json>, os: seq<Origin>, op: Op)
    requires InArray(op, c) && c != [] && Within(os, |xs|) && Moved(os, op).Some?
    ensures Within(Moved(os, op).value, |xs|)
    ensures ShadowStep(map[c := Values(xs, os)], op) == Success(map[c := Values(xs, Moved(os, op).value)])
  {
    var lists: Lists := map[c := Values(xs, os)];
    var t := op.path[|c|];
    assert op.path == c + [t] && op.path[|c|..] == [t];
    assert Source(op.path, lists.Keys) == Some(c);
    MovedValues(xs, os, op);
    assert ApplyEdit(Arr(Values(xs, os)), [t], EditOf(op)) == EditHere(Arr(Values(xs, os)), t, EditOf(op));
    FastIsGeneral(Values(xs, os), op, [t]);
    assert lists[c := Values(xs, Moved(os, op).value)] == map[c := Values(xs, Moved(os, op).value)];
  }

  lemma LookupIs(before: Json, c: Path, items: seq<Json>, j: nat)
    requires c != [] && j < |items|
    ensures Lookup(before, map[c := items], c + [Num(j)]) == items[j]
  {
    var ls: Lists := map[c := items];
    assert c < c + [Num(j)];
    assert Source(c + [Num(j)], ls.Keys) == Some(c);
    assert (c + [Num(j)])[|c|..] == [Num(j)];
    assert Get(Arr(items), [Num(j)]) == Some(items[j]) by { assert [Num(j)][1..] == []; }
  }

  lemma CopyIs(before: Json, lists: Lists, c: Path, xs: seq<Json>, ops: seq<Op>, j: nat, w: Json)
    requires AllIn(ops, c) && Findable(c, ops) && Get(before, c) == Some(Arr(xs))
    requires PossibleShadows(before, ArrayPatch(c, ops, j, w), lists)
    ensures lists == map[c := xs]
  {
    var patch := ArrayPatch(c, ops, j, w);
    ContainerIs(c, ops, j, w);
    PatchPrefix(c, ops, j, w);
    var tracked := TrackingOf(before, patch, lists);
    OnlyTracked(patch, tracked, c, patch[|ops|]);
    ShadowOfOne(before, c, xs);
  }

  /** An array that is not found is looked up in the original document. */
  lemma NotFoundIsOriginal(before: Json, lists: Lists, c: Path, xs: seq<Json>, ops: seq<Op>, j: nat, w: Json)
    requires AllIn(ops, c) && !Findable(c, ops) && Get(before, c) == Some(Arr(xs))
    requires PossibleShadows(before, ArrayPatch(c, ops, j, w), lists)
    ensures Reported(before, lists, ArrayPatch(c, ops, j, w), |ops|) == Some(if j < |xs| then xs[j] else Null)
  {
    ContainerIs(c, ops, j, w);
    ListsAreContainers(before, ArrayPatch(c, ops, j, w), lists);
    assert forall a <- lists :: a == [];
    NothingTaken(lists, ops);
    ReportIs(before, lists, c, ops, j, w);
    LookupOriginal(before, lists, c, xs, j);
  }

  lemma LookupOriginal(before: Json, lists: Lists, c: Path, xs: seq<Json>, j: nat)
    requires Get(before, c) == Some(Arr(xs)) && forall a <- lists :: a == []
    ensures Lookup(before, lists, c + [Num(j)]) == if j < |xs| then xs[j] else Null
  {
    assert Source(c + [Num(j)], lists.Keys).None?;
    GetSplit(before, c, [Num(j)]);
    assert [Num(j)][1..] == [];
    assert Get(Arr(xs), [Num(j)]) == if j < |xs| then Some(xs[j]) else None;
  }

  // ----- exactly when the report is right -------------------------------------------------------------------------------

  /** For every document with an array of n elements at c, and every order in which containers are met. */
  ghost predicate RightForAll(n: nat, c: Path, ops: seq<Op>, j: nat, w: Json) {
    forall before: Json, xs: seq<Json>, lists: Lists ::
      |xs| == n && Get(before, c) == Some(Arr(xs)) && PossibleShadows(before, ArrayPatch(c, ops, j, w), lists) ==>
        Reported(before, lists, ArrayPatch(c, ops, j, w), |ops|) == Overwritten(before, ArrayPatch(c, ops, j, w), |ops|)
  }

  /** The element at j has not moved, or nothing stood there at first and a null was added. */
  predicate SameAnyway(n: nat, o: Origin, j: nat) {
    o == Old(j) || (j >= n && o == New(Null))
  }

  /**
   The report is right for all contents exactly when the pattern finds the array, or the replaced element stands where it
   stood at first (or is a null added beyond the end).
   */
  lemma RightExactly(n: nat, c: Path, ops: seq<Op>, j: nat, w: Json)
    requires AllIn(ops, c) && Origins(n, c, ops).Some? && j < |Origins(n, c, ops).value|
    ensures RightForAll(n, c, ops, j, w) <==> Findable(c, ops) || SameAnyway(n, Origins(n, c, ops).value[j], j)
  {
    var patch := ArrayPatch(c, ops, j, w);
    if Findable(c, ops) || SameAnyway(n, Origins(n, c, ops).value[j], j) {
      forall before: Json, xs: seq<Json>, lists: Lists
        | |xs| == n && Get(before, c) == Some(Arr(xs)) && PossibleShadows(before, patch, lists)
        ensures Reported(before, lists, patch, |ops|) == Overwritten(before, patch, |ops|)
      {
        if Findable(c, ops) {
          FoundIsRight(before, lists, c, xs, ops, j, w);
        } else {
          NotFoundIsOriginal(before, lists, c, xs, ops, j, w);
          OverwrittenIs(before, c, xs, ops, j, w);
        }
      }
    } else {
      var before, xs, lists := WrongOne(n, c, ops, j, w);
    }
  }

  /** The document that has only v, at c. */
  function At(c: Path, v: Json): Json {
    if c == [] then v else Obj(map[c[0] := At(c[1..], v)])
  }

  lemma {:induction false} GetAt(c: Path, v: Json)
    ensures Get(At(c, v), c) == Some(v)
  {
    if c != [] { GetAt(c[1..], v); }
  }

  /** Contents for which the two values differ. */
  function Telling(n: nat, o: Origin): seq<Json> {
    match o
    case Old(i) => seq(n, k => Scalar(if k == i then "a" else "b"))
    case New(v) => seq(n, k => if v == Null then Scalar("a") else Null)
  }

  lemma WrongOne(n: nat, c: Path, ops: seq<Op>, j: nat, w: Json) returns (before: Json, xs: seq<Json>, lists: Lists)
    requires AllIn(ops, c) && Origins(n, c, ops).Some? && j < |Origins(n, c, ops).value|
    requires !Findable(c, ops) && !SameAnyway(n, Origins(n, c, ops).value[j], j)
    ensures |xs| == n && Get(before, c) == Some(Arr(xs)) && PossibleShadows(before, ArrayPatch(c, ops, j, w), lists)
    ensures Reported(before, lists, ArrayPatch(c, ops, j, w), |ops|) != Overwritten(before, ArrayPatch(c, ops, j, w), |ops|)
  {
    var patch := ArrayPatch(c, ops, j, w);
    xs := Telling(n, Origins(n, c, ops).value[j]);
    before := At(c, Arr(xs));
    GetAt(c, Arr(xs));
    var order := SomeSequence(Containers(patch));
    Possible(before, patch, order, TrackedBy(patch, order));
    lists := ShadowArrays(before, TrackedBy(patch, order));
    NotFoundIsOriginal(before, lists, c, xs, ops, j, w);
    OverwrittenIs(before, c, xs, ops, j, w);
  }
}
