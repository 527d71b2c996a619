/**
 A second replace of one element. No copy takes a replace, so it reports what the first one reported, wherever the element
 has moved in between.
 */
module JsonSecondReplace {
  import opened Sequences
  import opened Wrappers
  import opened JsonDocument
  import opened JsonShadow
  import opened JsonChanges
  import opened JsonFlatPatches
  import opened JsonLimits
  import opened JsonReplaced

  /**
   The element that is at q when operation k runs was at p right after operation i, and no operation in between wrote at, above
   or inside it.
   */
  predicate Traced(before: Json, patch: seq<Op>, i: nat, k: nat, q: Path, p: Path)
    requires i < k <= |patch| && Replay(before, patch[..k]).Some?
  {
    if k == i + 1 then q == p
    else
      assert patch[..k][..k - 1] == patch[..k - 1];
      var op := patch[k - 1];
      var d := Replay(before, patch[..k - 1]).value;
      if Structural(op) && !(q < op.path) then
        match Back(d, op.path, EditOf(op), q)
        case Some(q') => Traced(before, patch, i, k - 1, q', p)
        case None => false
      else !OpTouches(d, op, q) && Traced(before, patch, i, k - 1, q, p)
  }

  // ----- the way of the element ------------------------------------------------------------------------------------------------

  /** Operation op makes d' of d, and the element at q' in d' was at q in d. */
  predicate Link(patch: seq<Op>, op: Op, d: Json, d': Json, q: Path, q': Path) {
    op in patch && ApplyOp(d, op) == Some(d') && Get(d', q').Some? && StepsBack(d, op, false, q', q)
  }

  /** The documents that the operations give one after the other, and where the element is in each. */
  ghost predicate Trail(patch: seq<Op>, ops: seq<Op>, docs: seq<Json>, places: seq<Path>) {
    && |docs| == |ops| + 1 && |places| == |ops| + 1
    && forall j :: 0 <= j < |ops| ==> Link(patch, ops[j], docs[j], docs[j + 1], places[j], places[j + 1])
  }

  lemma TrailGrows(patch: seq<Op>, ops: seq<Op>, docs: seq<Json>, places: seq<Path>, op: Op, d: Json, q: Path)
    requires Trail(patch, ops, docs, places) && Link(patch, op, docs[|ops|], d, places[|ops|], q)
    ensures Trail(patch, ops + [op], docs + [d], places + [q])
  {
    forall j | 0 <= j < |ops| + 1
      ensures Link(patch, (ops + [op])[j], (docs + [d])[j], (docs + [d])[j + 1], (places + [q])[j], (places + [q])[j + 1])
    {
      if j < |ops| { assert Link(patch, ops[j], docs[j], docs[j + 1], places[j], places[j + 1]); }
    }
  }

  lemma OneTraced(before: Json, patch: seq<Op>, i: nat, k: nat, q: Path, p: Path) returns (q': Path)
    requires i + 1 < k <= |patch| && Replay(before, patch[..k]).Some? && Traced(before, patch, i, k, q, p)
    requires Get(Replay(before, patch[..k]).value, q).Some?
    ensures Replay(before, patch[..k - 1]).Some? && Traced(before, patch, i, k - 1, q', p)
    ensures Get(Replay(before, patch[..k - 1]).value, q').Some?
    ensures Link(patch, patch[k - 1], Replay(before, patch[..k - 1]).value, Replay(before, patch[..k]).value, q', q)
  {
    assert patch[..k][..k - 1] == patch[..k - 1];
    var op, d := patch[k - 1], Replay(before, patch[..k - 1]).value;
    if Structural(op) && !(q < op.path) {
      q' := Back(d, op.path, EditOf(op), q).value;
    } else {
      q' := q;
    }
    ExistedBefore(d, op, false, q, q');
  }

  /** The operations of the patch from number m on. */
  predicate Following(patch: seq<Op>, m: nat, ops: seq<Op>) {
    m + |ops| <= |patch| && forall j :: 0 <= j < |ops| ==> ops[j] == patch[m + j]
  }

  lemma FollowingGrows(patch: seq<Op>, m: nat, ops: seq<Op>)
    requires Following(patch, m, ops) && m + |ops| < |patch|
    ensures Following(patch, m, ops + [patch[m + |ops|]])
  {
  }

  /** The trail of an element: it begins with what operation i made, and ends with what operation k finds. */
  ghost predicate TrailFrom(before: Json, patch: seq<Op>, i: nat, k: nat, ops: seq<Op>, docs: seq<Json>, places: seq<Path>) {
    && i < k <= |patch| && |ops| == k - i - 1 && Following(patch, i + 1, ops) && Trail(patch, ops, docs, places)
    && Replay(before, patch[..i + 1]) == Some(docs[0])
  }

  lemma {:induction false} TrailOf(before: Json, patch: seq<Op>, i: nat, k: nat, q: Path, p: Path)
    returns (ops: seq<Op>, docs: seq<Json>, places: seq<Path>)
    requires i < k <= |patch| && Replay(before, patch[..k]).Some? && Traced(before, patch, i, k, q, p)
    requires Get(Replay(before, patch[..k]).value, q).Some?
    ensures TrailFrom(before, patch, i, k, ops, docs, places)
    ensures docs[|ops|] == Replay(before, patch[..k]).value && places[0] == p && places[|ops|] == q
  {
    var d := Replay(before, patch[..k]).value;
    if k == i + 1 {
      ops, docs, places := [], [d], [q];
    } else {
      var q' := OneTraced(before, patch, i, k, q, p);
      ops, docs, places := TrailOf(before, patch, i, k - 1, q', p);
      FollowingGrows(patch, i + 1, ops);
      TrailGrows(patch, ops, docs, places, patch[k - 1], d, q);
      ops, docs, places := ops + [patch[k - 1]], docs + [d], places + [q];
    }
  }

  // ----- in the document ------------------------------------------------------------------------------------------------------

  /** What an edit moved to r is what was there before, unless the edit was made inside it. */
  lemma {:induction false} BackGets(x: Json, p: Path, e: Edit, r: Path)
    requires ApplyEdit(x, p, e).Some? && Back(x, p, e, r).Some? && !(r < p)
    requires Get(ApplyEdit(x, p, e).value, r).Some?
    ensures Get(x, Back(x, p, e, r).value) == Get(ApplyEdit(x, p, e).value, r)
    decreases p
  {
    if !Touches(x, p, e, r) {
      NotTouchedStays(x, p, e, r);
      UntouchedStays(x, p, e, r);
    } else if |p| == 1 {
      BackGetsHere(x, p[0], e, r);
    } else {
      ShiftSlotStep(x, p, e);
      assert p == [p[0]] + p[1..];
      if !(p <= r) { AtOrAfterSame(p, ShiftSlot(x, p, e).value, r); }
      assert r == [r[0]] + r[1..];
      BackStep(x, p, e, r);
      BackGets(Child(x, p[0]).value, p[1..], e, r[1..]);
    }
  }

  lemma BackGetsHere(x: Json, t: Token, e: Edit, r: Path)
    requires EditHere(x, t, e).Some? && Back(x, [t], e, r).Some? && !(r < [t]) && Touches(x, [t], e, r)
    ensures Get(x, Back(x, [t], e, r).value) == Get(EditHere(x, t, e).value, r)
  {
    assert [t][..0] == [] && Get(x, []) == Some(x);
    var r0 := Back(x, [t], e, r).value;
    assert r == [r[0]] + r[1..] && r0[1..] == r[1..];
    assert Child(EditHere(x, t, e).value, r[0]) == Child(x, r0[0]);
  }

  lemma StepGets(d: Json, op: Op, q: Path, q': Path)
    requires ApplyOp(d, op).Some? && Get(ApplyOp(d, op).value, q).Some? && StepsBack(d, op, false, q, q')
    ensures Get(ApplyOp(d, op).value, q) == Get(d, q')
  {
    if Structural(op) && !(q < op.path) {
      BackGets(d, op.path, EditOf(op), q);
    } else {
      OpElsewhereStays(d, op, q);
    }
  }

  /** The element keeps its value. */
  lemma {:induction false} TrailValue(patch: seq<Op>, ops: seq<Op>, docs: seq<Json>, places: seq<Path>, j: nat)
    requires Trail(patch, ops, docs, places) && j <= |ops|
    ensures Get(docs[j], places[j]) == Get(docs[0], places[0])
  {
    if j > 0 {
      assert Link(patch, ops[j - 1], docs[j - 1], docs[j - 1 + 1], places[j - 1], places[j - 1 + 1]);
      StepGets(docs[j - 1], ops[j - 1], places[j], places[j - 1]);
      TrailValue(patch, ops, docs, places, j - 1);
    }
  }

  lemma StaysBelow(d: Json, patch: seq<Op>, op: Op, c: Path, q: Path, q': Path)
    requires Flat(patch) && op in patch && StructuralContainer(patch, c) && c < q'
    requires ApplyOp(d, op).Some? && Get(ApplyOp(d, op).value, q).Some? && StepsBack(d, op, false, q, q')
    ensures c < q
  {
    if Structural(op) && !(q < op.path) {
      if Touches(d, op.path, EditOf(op), q) {
        ShiftsInContainer(d, patch, op, q);
        BackBeyond(d, op.path, EditOf(op), q);
        OneContainer(patch, op.path[..|op.path| - 1], c, q');
      } else {
        NotTouchedStays(d, op.path, EditOf(op), q);
      }
    }
  }

  lemma LinkContainer(patch: seq<Op>, op: Op, d: Json, d': Json, q: Path, q': Path, c: Path)
    requires Flat(patch) && StructuralContainer(patch, c) && Link(patch, op, d, d', q, q')
    ensures c < q' <==> c < q
    ensures c < q ==> (IsArray(d', c) <==> IsArray(d, c))
  {
    if c < q' {
      ContainerStays(d, patch, op, false, c, q', q);
    } else if c < q {
      StaysBelow(d, patch, op, c, q', q);
    }
  }

  /** A container above the element stays above it, and stays an array or not. */
  lemma {:induction false} TrailContainer(patch: seq<Op>, ops: seq<Op>, docs: seq<Json>, places: seq<Path>, j: nat, c: Path)
    requires Flat(patch) && StructuralContainer(patch, c) && Trail(patch, ops, docs, places) && j <= |ops|
    ensures c < places[j] <==> c < places[0]
    ensures c < places[0] ==> (IsArray(docs[j], c) <==> IsArray(docs[0], c))
  {
    if j > 0 {
      LinkContainer(patch, ops[j - 1], docs[j - 1], docs[j - 1 + 1], places[j - 1], places[j - 1 + 1], c);
      TrailContainer(patch, ops, docs, places, j - 1, c);
    }
  }

  /** Operation i replaces the element at p, as the patch is valid up to operation k. */
  predicate Replaces(before: Json, patch: seq<Op>, i: nat, p: Path) {
    && i < |patch| && patch[i].Replace? && patch[i].path == p
    && Replay(before, patch[..i]).Some?
    && Replay(before, patch[..i + 1]) == ApplyOp(Replay(before, patch[..i]).value, patch[i])
    && Replay(before, patch[..i + 1]).Some?
  }

  /** The container is an array right after the replace exactly when it was one at first. */
  lemma ArrayThen(before: Json, patch: seq<Op>, i: nat, covered: bool, c: Path, p: Path)
    requires Flat(patch) && StructuralContainer(patch, c) && c < p
    requires Replaces(before, patch, i, p) && Followed(before, patch, i, covered, p)
    ensures IsArray(Replay(before, patch[..i + 1]).value, c) <==> IsArray(before, c)
  {
    var d, v := Replay(before, patch[..i]).value, patch[i].value;
    OverwriteExists(d, p, v);
    EditLeavesArray(d, p, Overwrite(v), c, p);
    ContainerWas(before, patch, i, covered, c, p);
  }

  // ----- in the original ------------------------------------------------------------------------------------------------------

  /** No changed array holds the element at q. */
  ghost predicate NoArrayAbove(d: Json, patch: seq<Op>, q: Path) {
    forall a :: StructuralContainer(patch, a) && a < q ==> !IsArray(d, a)
  }

  lemma NotMoved(d: Json, patch: seq<Op>, op: Op, q: Path, q': Path)
    requires Flat(patch) && op in patch && NoArrayAbove(d, patch, q')
    requires ApplyOp(d, op).Some? && Get(ApplyOp(d, op).value, q).Some? && StepsBack(d, op, false, q, q')
    ensures q' == q
  {
    if Structural(op) && !(q < op.path) {
      if Touches(d, op.path, EditOf(op), q) {
        ShiftsInContainer(d, patch, op, q);
        BackBeyond(d, op.path, EditOf(op), q);
        assert false;
      }
      NotTouchedStays(d, op.path, EditOf(op), q);
    }
  }

  /** An element under no changed array has not moved. */
  lemma {:induction false} TrailStill(patch: seq<Op>, ops: seq<Op>, docs: seq<Json>, places: seq<Path>, j: nat)
    requires Flat(patch) && Trail(patch, ops, docs, places) && j <= |ops| && NoArrayAbove(docs[0], patch, places[0])
    ensures places[j] == places[0]
  {
    if j > 0 {
      forall a | StructuralContainer(patch, a) && a < places[j - 1] ensures !IsArray(docs[j - 1], a) {
        TrailContainer(patch, ops, docs, places, j - 1, a);
      }
      assert Link(patch, ops[j - 1], docs[j - 1], docs[j - 1 + 1], places[j - 1], places[j - 1 + 1]);
      NotMoved(docs[j - 1], patch, ops[j - 1], places[j], places[j - 1]);
      TrailStill(patch, ops, docs, places, j - 1);
    }
  }

  // ----- in a copy -----------------------------------------------------------------------------------------------------------

  /** An addition or removal in the array moves the elements of every list alike, the clamped index included. */
  lemma DirectKeeps(x: Json, xs: seq<Json>, op: Op, t: Token, r: Path, r': Path)
    requires Structural(op) && x.Arr? && EditHere(x, t, EditOf(op)).Some? && FastListOp(xs, op, [t]).Success?
    requires r != [] && Get(EditHere(x, t, EditOf(op)).value, r).Some? && Back(x, [t], EditOf(op), r) == Some(r')
    requires Get(Arr(xs), r').Some?
    ensures Get(Arr(FastListOp(xs, op, [t]).value), r) == Get(Arr(xs), r')
  {
    var e := EditOf(op);
    assert [t][..0] == [] && Get(x, []) == Some(x);
    assert [t][..0] <= r;
    assert r'[1..] == r[1..];
    assert Child(EditHere(x, t, e).value, r[0]).Some?;
    assert Child(Arr(xs), r'[0]).Some?;
    assert Child(Arr(FastListOp(xs, op, [t]).value), r[0]) == Child(Arr(xs), r'[0]);
  }

  /** An edit of another element does not touch this one in a copy either. */
  lemma InnerKeeps(patch: seq<Op>, xs: seq<Json>, op: Op, c: Path, r: Path)
    requires Flat(patch) && op in patch && StructuralContainer(patch, c) && Structural(op)
    requires c < op.path && |op.path| > |c| + 1 && Taken(xs, c, op).Success?
    requires r != [] && !(c + r <= op.path) && !(op.path <= c + r) && Get(Arr(xs), r).Some?
    ensures Get(Arr(Taken(xs, c, op).value), r) == Get(Arr(xs), r)
  {
    var rel, e := op.path[|c|..], EditOf(op);
    assert op.path == c + rel;
    PrefixBelow(c, r, rel);
    PrefixBelow(c, rel, r);
    if Touches(Arr(xs), rel, e, r) {
      ShiftOfInner(patch, xs, op, c, rel, r);
      assert false;
    }
    UntouchedStays(Arr(xs), rel, e, r);
  }

  lemma ShiftOfInner(patch: seq<Op>, xs: seq<Json>, op: Op, c: Path, rel: Path, r: Path)
    requires Flat(patch) && op in patch && StructuralContainer(patch, c) && Structural(op)
    requires op.path == c + rel && |rel| > 1 && Get(Arr(xs), r).Some?
    ensures ShiftSlot(Arr(xs), rel, EditOf(op)).Some? ==> !AtOrAfter(rel, ShiftSlot(Arr(xs), rel, EditOf(op)).value, r)
  {
    var m := |rel| - 1;
    var slot := ShiftSlot(Arr(xs), rel, EditOf(op));
    if slot.Some? && AtOrAfter(rel, slot.value, r) {
      if rel[m].Num? {
        assert op.path[..|op.path| - 1] == c + rel[..m] && |rel[..m]| > 0;
        PositionIsContainer(patch, op);
        assert false;
      } else {
        var items := Get(Arr(xs), rel[..m]).value;
        assert r == rel[..m] + r[m..];
        GetSplit(Arr(xs), rel[..m], r[m..]);
      }
    }
  }

  /** An addition or removal that is not below c does not move an element below c. */
  lemma OtherStepKeeps(d: Json, patch: seq<Op>, op: Op, c: Path, q: Path, q': Path)
    requires Flat(patch) && op in patch && StructuralContainer(patch, c) && c < q && !(Structural(op) && c < op.path)
    requires ApplyOp(d, op).Some? && Get(ApplyOp(d, op).value, q).Some? && StepsBack(d, op, false, q, q')
    ensures q' == q
  {
    if Structural(op) && !(q < op.path) {
      if Touches(d, op.path, EditOf(op), q) {
        ShiftsInContainer(d, patch, op, q);
        OneContainer(patch, op.path[..|op.path| - 1], c, q);
        assert false;
      }
      NotTouchedStays(d, op.path, EditOf(op), q);
    }
  }

  /** One operation of the document and the copy xs of c moves the element alike in both. */
  lemma CopyStepKeeps(d: Json, patch: seq<Op>, xs: seq<Json>, op: Op, c: Path, q: Path, q': Path)
    requires Flat(patch) && op in patch && StructuralContainer(patch, c) && Taken(xs, c, op).Success?
    requires ApplyOp(d, op).Some? && Get(ApplyOp(d, op).value, q).Some? && StepsBack(d, op, false, q, q')
    requires c < q && c < q' && IsArray(d, c) && Get(Arr(xs), q'[|c|..]).Some?
    ensures Get(Arr(Taken(xs, c, op).value), q[|c|..]) == Get(Arr(xs), q'[|c|..])
  {
    if Structural(op) && c < op.path {
      if |op.path| == |c| + 1 {
        DirectStepKeeps(d, xs, op, c, q, q');
      } else {
        InnerStepKeeps(d, patch, xs, op, c, q, q');
      }
    } else {
      OtherStepKeeps(d, patch, op, c, q, q');
    }
  }

  lemma DirectStepKeeps(d: Json, xs: seq<Json>, op: Op, c: Path, q: Path, q': Path)
    requires Structural(op) && c < op.path && |op.path| == |c| + 1 && Taken(xs, c, op).Success?
    requires ApplyOp(d, op).Some? && Get(ApplyOp(d, op).value, q).Some? && StepsBack(d, op, false, q, q')
    requires c < q && c < q' && IsArray(d, c) && Get(Arr(xs), q'[|c|..]).Some?
    ensures Get(Arr(Taken(xs, c, op).value), q[|c|..]) == Get(Arr(xs), q'[|c|..])
  {
    var t, r, r' := op.path[|c|], q[|c|..], q'[|c|..];
    assert op.path == c + [t] && op.path[|c|..] == [t] && q == c + r && q' == c + r';
    EditBelow(d, c, [t], EditOf(op));
    GetSplit(ApplyOp(d, op).value, c, r);
    BackBelow(d, c, [t], EditOf(op), r);
    DirectKeeps(Get(d, c).value, xs, op, t, r, r');
  }

  lemma InnerStepKeeps(d: Json, patch: seq<Op>, xs: seq<Json>, op: Op, c: Path, q: Path, q': Path)
    requires Flat(patch) && op in patch && StructuralContainer(patch, c)
    requires Structural(op) && c < op.path && |op.path| > |c| + 1 && Taken(xs, c, op).Success?
    requires ApplyOp(d, op).Some? && Get(ApplyOp(d, op).value, q).Some? && StepsBack(d, op, false, q, q')
    requires c < q && c < q' && Get(Arr(xs), q'[|c|..]).Some?
    ensures Get(Arr(Taken(xs, c, op).value), q[|c|..]) == Get(Arr(xs), q'[|c|..])
  {
    if Touches(d, op.path, EditOf(op), q) {
      ShiftsInContainer(d, patch, op, q);
      OneContainer(patch, op.path[..|op.path| - 1], c, q);
      assert false;
    }
    NotTouchedStays(d, op.path, EditOf(op), q);
    assert q == c + q[|c|..];
    InnerKeeps(patch, xs, op, c, q[|c|..]);
  }

  /** What the copy of c holds at q after these operations. */
  function Held(xs: seq<Json>, ops: seq<Op>, c: Path, q: Path): Option<Json>
    requires Alone(xs, c, ops).Success? && c < q
  {
    Get(Arr(Alone(xs, c, ops).value), q[|c|..])
  }

  lemma LinkKeeps(patch: seq<Op>, op: Op, d: Json, d': Json, q: Path, q': Path, xs: seq<Json>, c: Path)
    requires Flat(patch) && StructuralContainer(patch, c) && Link(patch, op, d, d', q, q') && Taken(xs, c, op).Success?
    requires c < q && c < q' && IsArray(d, c) && Get(Arr(xs), q[|c|..]).Some?
    ensures Get(Arr(Taken(xs, c, op).value), q'[|c|..]) == Get(Arr(xs), q[|c|..])
  {
    CopyStepKeeps(d, patch, xs, op, c, q', q);
  }

  lemma OneKept(patch: seq<Op>, m: nat, ops: seq<Op>, docs: seq<Json>, places: seq<Path>, j: nat, xs: seq<Json>, c: Path)
    requires Flat(patch) && StructuralContainer(patch, c) && Trail(patch, ops, docs, places) && 0 < j <= |ops|
    requires Following(patch, m, ops) && c < places[j] && c < places[j - 1] && IsArray(docs[j - 1], c)
    requires Alone(xs, c, patch[..m + j]).Success?
    ensures Alone(xs, c, patch[..m + j - 1]).Success?
    ensures Held(xs, patch[..m + j - 1], c, places[j - 1]).Some? ==>
              Held(xs, patch[..m + j], c, places[j]) == Held(xs, patch[..m + j - 1], c, places[j - 1])
  {
    assert patch[..m + j][..m + j - 1] == patch[..m + j - 1] && ops[j - 1] == patch[m + (j - 1)];
    if Held(xs, patch[..m + j - 1], c, places[j - 1]).Some? {
      LinkKeeps(patch, ops[j - 1], docs[j - 1], docs[j - 1 + 1], places[j - 1], places[j - 1 + 1],
                Alone(xs, c, patch[..m + j - 1]).value, c);
    }
  }

  lemma BelowAll(patch: seq<Op>, ops: seq<Op>, docs: seq<Json>, places: seq<Path>, c: Path)
    requires Flat(patch) && StructuralContainer(patch, c) && Trail(patch, ops, docs, places)
    requires c < places[0] && IsArray(docs[0], c)
    ensures InArray(docs, places, c)
  {
    forall j | 0 <= j < |docs| ensures c < places[j] && IsArray(docs[j], c) {
      TrailContainer(patch, ops, docs, places, j, c);
    }
  }

  /** The element is in the array at c all the time. */
  predicate InArray(docs: seq<Json>, places: seq<Path>, c: Path) {
    |places| == |docs| && forall j :: 0 <= j < |docs| ==> c < places[j] && IsArray(docs[j], c)
  }

  predicate AllBelow(places: seq<Path>, c: Path) {
    forall j :: 0 <= j < |places| ==> c < places[j]
  }

  /** No operation changes what the copy holds for the element. */
  predicate StepsKeep(patch: seq<Op>, m: nat, places: seq<Path>, xs: seq<Json>, c: Path, n: nat)
    requires m + n <= |patch| && n < |places| && AllBelow(places, c)
  {
    forall j :: 0 < j <= n ==> StepKeeps(patch, m, places, xs, c, j)
  }

  predicate StepKeeps(patch: seq<Op>, m: nat, places: seq<Path>, xs: seq<Json>, c: Path, j: nat)
    requires 0 < j < |places| && m + j <= |patch| && c < places[j] && c < places[j - 1]
  {
    Alone(xs, c, patch[..m + j]).Success? ==>
      && Alone(xs, c, patch[..m + j - 1]).Success?
      && (Held(xs, patch[..m + j - 1], c, places[j - 1]).Some? ==>
            Held(xs, patch[..m + j], c, places[j]) == Held(xs, patch[..m + j - 1], c, places[j - 1]))
  }

  lemma AllKept(patch: seq<Op>, m: nat, ops: seq<Op>, docs: seq<Json>, places: seq<Path>, xs: seq<Json>, c: Path)
    requires Flat(patch) && StructuralContainer(patch, c) && Trail(patch, ops, docs, places) && Following(patch, m, ops)
    requires InArray(docs, places, c)
    ensures AllBelow(places, c) && StepsKeep(patch, m, places, xs, c, |ops|)
  {
    forall j | 0 < j <= |ops| ensures StepKeeps(patch, m, places, xs, c, j) {
      assert c < places[j] && c < places[j - 1] && IsArray(docs[j - 1], c);
      if Alone(xs, c, patch[..m + j]).Success? { OneKept(patch, m, ops, docs, places, j, xs, c); }
    }
  }

  /** The copy of c still holds for the element what it held after the first m operations. */
  lemma {:induction false} CopyKeeps(patch: seq<Op>, m: nat, places: seq<Path>, j: nat, xs: seq<Json>, c: Path)
    requires m + j <= |patch| && j < |places| && AllBelow(places, c) && StepsKeep(patch, m, places, xs, c, j)
    requires Alone(xs, c, patch[..m + j]).Success?
    requires Alone(xs, c, patch[..m]).Success? && Held(xs, patch[..m], c, places[0]).Some?
    ensures Held(xs, patch[..m + j], c, places[j]) == Held(xs, patch[..m], c, places[0])
  {
    if j > 0 {
      assert StepKeeps(patch, m, places, xs, c, j);
      assert m + (j - 1) == m + j - 1;
      CopyKeeps(patch, m, places, j - 1, xs, c);
    }
  }

  // ----- the two reports -----------------------------------------------------------------------------------------------------

  /** The copy holds the element that operation i replaces. */
  lemma HeldAtFirst(before: Json, patch: seq<Op>, xs: seq<Json>, i: nat, c: Path, p: Path)
    requires Flat(patch) && StructuralContainer(patch, c) && c < p && Get(before, c) == Some(Arr(xs))
    requires Replaces(before, patch, i, p) && Followed(before, patch, i, true, p) && Alone(xs, c, patch[..i]).Success?
    ensures Alone(xs, c, patch[..i + 1]) == Alone(xs, c, patch[..i]) && Held(xs, patch[..i + 1], c, p).Some?
  {
    var lists: Lists := map[c := xs];
    assert patch[..i + 1][..i] == patch[..i];
    OverwriteExists(Replay(before, patch[..i]).value, p, patch[i].value);
    AloneIsRun(patch, lists, c, i);
    CopyTakesAll(before, patch, lists.Keys, i, c, p);
    CopyHolds(before, lists, patch, i, c, p);
  }

  lemma {:induction false} AloneIsRun(patch: seq<Op>, lists: Lists, c: Path, k: nat)
    requires Flat(patch) && StructuralContainer(patch, c) && lists.Keys == {c} && k <= |patch|
    requires Alone(lists[c], c, patch[..k]).Success?
    ensures ShadowRun(lists, patch[..k]).Success?
    ensures ShadowRun(lists, patch[..k]).value[c] == Alone(lists[c], c, patch[..k]).value
  {
    if ShadowRun(lists, patch[..k]).Failure? {
      var a := RunFailsAlone(patch, lists, patch[..k]);
    } else {
      RunAlone(patch, lists, patch[..k], c);
    }
  }

  lemma PrefixSucceeds(lists: Lists, patch: seq<Op>, k: nat)
    requires k <= |patch| && ShadowRun(lists, patch).Success?
    ensures ShadowRun(lists, patch[..k]).Success?
  {
    if ShadowRun(lists, patch[..k]).Failure? { RunFails(lists, patch, k); }
  }

  /** The value reported by operation k, which replaces an element of the copied array at c. */
  lemma ReportIsHeld(before: Json, patch: seq<Op>, lists: Lists, k: nat, c: Path)
    requires Flat(patch) && PossibleShadows(before, patch, lists) && ShadowRun(lists, patch).Success?
    requires k < |patch| && patch[k].Replace? && StructuralContainer(patch, c) && c < patch[k].path && IsArray(before, c)
    ensures c in lists && Get(before, c) == Some(Arr(lists[c])) && Alone(lists[c], c, patch[..k]).Success?
    ensures Reported(before, lists, patch, k)
            == Some(match Held(lists[c], patch[..k], c, patch[k].path) case Some(v) => v case None => Null)
  {
    Copied(before, patch, lists, patch[k], c);
    PrefixSucceeds(lists, patch, k);
    ListsAreContainers(before, patch, lists);
    ShadowsAreCopies(before, patch, lists);
    RunAlone(patch, lists, patch[..k], c);
    ChangeOf(before, lists, patch, k);
  }

  lemma SameHeld(before: Json, patch: seq<Op>, xs: seq<Json>, i: nat, k: nat, c: Path,
                 ops: seq<Op>, docs: seq<Json>, places: seq<Path>)
    requires TrailFrom(before, patch, i, k, ops, docs, places) && c < places[0] && c < places[|ops|]
    requires Flat(patch) && StructuralContainer(patch, c) && IsArray(docs[0], c)
    requires Alone(xs, c, patch[..k]).Success? && Alone(xs, c, patch[..i + 1]).Success?
    requires Held(xs, patch[..i + 1], c, places[0]).Some?
    ensures Held(xs, patch[..k], c, places[|ops|]) == Held(xs, patch[..i + 1], c, places[0])
  {
    assert i + 1 + |ops| == k;
    BelowAll(patch, ops, docs, places, c);
    AllKept(patch, i + 1, ops, docs, places, xs, c);
    CopyKeeps(patch, i + 1, places, |ops|, xs, c);
  }

  /** What lay below a container after operation i still does. */
  lemma TracedBelow(before: Json, patch: seq<Op>, i: nat, k: nat, c: Path, q: Path, p: Path)
    requires Flat(patch) && StructuralContainer(patch, c) && c < p
    requires i < k <= |patch| && Replay(before, patch[..k]).Some? && Traced(before, patch, i, k, q, p)
    requires Get(Replay(before, patch[..k]).value, q).Some?
    ensures c < q
  {
    var ops, docs, places := TrailOf(before, patch, i, k, q, p);
    TrailContainer(patch, ops, docs, places, |ops|, c);
  }

  lemma HeldTwice(before: Json, patch: seq<Op>, xs: seq<Json>, i: nat, k: nat, c: Path, q: Path, p: Path)
    requires Flat(patch) && StructuralContainer(patch, c) && c < p && c < q && Get(before, c) == Some(Arr(xs))
    requires i < k <= |patch| && Replay(before, patch[..k]).Some? && Traced(before, patch, i, k, q, p)
    requires Get(Replay(before, patch[..k]).value, q).Some?
    requires Replaces(before, patch, i, p) && Followed(before, patch, i, true, p)
    requires Alone(xs, c, patch[..i]).Success? && Alone(xs, c, patch[..k]).Success?
    ensures Held(xs, patch[..k], c, q) == Held(xs, patch[..i], c, p)
  {
    HeldAtFirst(before, patch, xs, i, c, p);
    ArrayThen(before, patch, i, true, c, p);
    var ops, docs, places := TrailOf(before, patch, i, k, q, p);
    SameHeld(before, patch, xs, i, k, c, ops, docs, places);
  }

  lemma SameReportInCopy(before: Json, patch: seq<Op>, lists: Lists, i: nat, k: nat, c: Path)
    requires Flat(patch) && PossibleShadows(before, patch, lists) && ShadowRun(lists, patch).Success?
    requires i < k < |patch| && patch[k].Replace? && Replay(before, patch[..k]).Some?
    requires Replaces(before, patch, i, patch[i].path) && Followed(before, patch, i, true, patch[i].path)
    requires Traced(before, patch, i, k, patch[k].path, patch[i].path)
    requires Get(Replay(before, patch[..k]).value, patch[k].path).Some?
    requires StructuralContainer(patch, c) && c < patch[i].path && IsArray(before, c)
    ensures Reported(before, lists, patch, k) == Reported(before, lists, patch, i)
  {
    TracedBelow(before, patch, i, k, c, patch[k].path, patch[i].path);
    ReportIsHeld(before, patch, lists, i, c);
    ReportIsHeld(before, patch, lists, k, c);
    HeldTwice(before, patch, lists[c], i, k, c, patch[k].path, patch[i].path);
  }

  lemma NotHeldThen(before: Json, patch: seq<Op>, i: nat, p: Path)
    requires Flat(patch) && !Covered(before, patch, p)
    requires Replaces(before, patch, i, p) && Followed(before, patch, i, false, p)
    ensures NoArrayAbove(Replay(before, patch[..i + 1]).value, patch, p)
  {
    forall a | StructuralContainer(patch, a) && a < p ensures !IsArray(Replay(before, patch[..i + 1]).value, a) {
      ArrayThen(before, patch, i, false, a, p);
    }
  }

  lemma SameReportOfOriginal(before: Json, patch: seq<Op>, lists: Lists, i: nat, k: nat)
    requires Flat(patch) && PossibleShadows(before, patch, lists) && ShadowRun(lists, patch).Success?
    requires i < k < |patch| && patch[i].Replace? && patch[k].Replace? && patch[i].path == patch[k].path
    requires !Covered(before, patch, patch[i].path)
    ensures Reported(before, lists, patch, k) == Reported(before, lists, patch, i)
  {
    NotCovered(before, patch, lists, patch[i].path);
    ChangeOf(before, lists, patch, i);
    ChangeOf(before, lists, patch, k);
  }

  /**
   For every document, flat patch and order: when operation i replaces an element that was not written before, and operation k
   replaces the same element, wherever it is by then, the second report repeats the first. It is the overwritten value exactly
   when operation i replaced the element by itself.
   */
  lemma SecondReport(before: Json, patch: seq<Op>, lists: Lists, i: nat, k: nat)
    requires Flat(patch) && PossibleShadows(before, patch, lists) && ShadowRun(lists, patch).Success?
    requires i < k < |patch| && patch[i].Replace? && patch[k].Replace?
    requires Replay(before, patch[..k]).Some? && ApplyOp(Replay(before, patch[..k]).value, patch[k]).Some?
    requires Replay(before, patch[..i]).Some? && ApplyOp(Replay(before, patch[..i]).value, patch[i]).Some?
    requires Followed(before, patch, i, Covered(before, patch, patch[i].path), patch[i].path)
    requires Traced(before, patch, i, k, patch[k].path, patch[i].path)
    ensures Overwritten(before, patch, k) == Some(patch[i].value)
    ensures Reported(before, lists, patch, k) == Reported(before, lists, patch, i) == Overwritten(before, patch, i)
    ensures Reported(before, lists, patch, k) == Overwritten(before, patch, k)
            <==> Overwritten(before, patch, i) == Some(patch[i].value)
  {
    var p, q, v, d := patch[i].path, patch[k].path, patch[i].value, Replay(before, patch[..i]).value;
    assert patch[..i + 1][..i] == patch[..i];
    OverwriteExists(Replay(before, patch[..k]).value, q, patch[k].value);
    OverwriteExists(d, p, v);
    OverwriteGets(d, p, v);
    var ops, docs, places := TrailOf(before, patch, i, k, q, p);
    TrailValue(patch, ops, docs, places, |ops|);
    ReplacedIsOverwritten(before, lists, patch, i, d);
    if Covered(before, patch, p) {
      var c :| StructuralContainer(patch, c) && c < p && IsArray(before, c);
      SameReportInCopy(before, patch, lists, i, k, c);
    } else {
      NotHeldThen(before, patch, i, p);
      TrailStill(patch, ops, docs, places, |ops|);
      SameReportOfOriginal(before, patch, lists, i, k);
    }
  }
}
