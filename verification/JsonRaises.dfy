/**
 When `json_changes` raises although the patch is valid. An addition or removal directly in a copied array never does, as long
 as nothing else changes the length of that array: only one strictly inside an element can be rejected.
 */
module JsonRaises {
  import opened Sequences
  import opened Wrappers
  import opened JsonDocument
  import opened JsonChanges
  import opened JsonFlatPatches
  import opened JsonReplaced
  import opened JsonShadow

  // ----- the conditions ------------------------------------------------------------------------------------------------

  /** The edit is made strictly inside an element of the array at c, or does not write at, above or inside the array. */
  predicate Aside(d: Json, p: Path, e: Edit, c: Path) {
    (c < p && |p| > |c| + 1) || !Touches(d, p, e, c)
  }

  /** Applied to d, the operation leaves the length of the array at c to the additions and removals below it. */
  predicate Spares(d: Json, op: Op, c: Path) {
    match op
    case Test(_, _) => true
    case Copy(_, p) => Aside(d, p, Put(Null), c)
    case Move(f, p) =>
      && Aside(d, f, Delete, c)
      && (match ApplyEdit(d, f, Delete) case Some(d') => Aside(d', p, Put(Null), c) case None => true)
    case _ => c < op.path || !Touches(d, op.path, EditOf(op), c)
  }

  /** No operation of the patch writes the array at c as a whole, and no move or copy changes its length. */
  ghost predicate Stands(before: Json, patch: seq<Op>, c: Path) {
    forall k :: 0 <= k < |patch| && Replay(before, patch[..k]).Some? ==>
                  Spares(Replay(before, patch[..k]).value, patch[k], c)
  }

  ghost predicate AllStand(before: Json, patch: seq<Op>) {
    forall c :: StructuralContainer(patch, c) && IsArray(before, c) ==> Stands(before, patch, c)
  }

  /** An addition or removal strictly inside an element of the array at c. */
  predicate Inside(op: Op, c: Path) {
    Structural(op) && c < op.path && |op.path| > |c| + 1
  }

  /** The array takes the operations before number k, but not that one. */
  predicate Rejected(items: seq<Json>, c: Path, patch: seq<Op>, k: nat)
    requires k < |patch|
  {
    Alone(items, c, patch[..k]).Success? && Taken(Alone(items, c, patch[..k]).value, c, patch[k]).Failure?
  }

  // ----- the length of the array ------------------------------------------------------------------------------------------

  predicate HasLength(d: Json, c: Path, n: nat) {
    IsArray(d, c) && |Get(d, c).value.items| == n
  }

  lemma EditAside(d: Json, p: Path, e: Edit, c: Path, n: nat)
    requires ApplyEdit(d, p, e).Some? && Aside(d, p, e, c) && HasLength(d, c, n)
    ensures HasLength(ApplyEdit(d, p, e).value, c, n)
  {
    if !Touches(d, p, e, c) {
      UntouchedStays(d, p, e, c);
    } else {
      var q := p[|c|..];
      assert p == c + q;
      EditBelow(d, c, q, e);
    }
  }

  lemma EditDirectly(d: Json, c: Path, t: Token, e: Edit)
    requires ApplyEdit(d, c + [t], e).Some? && IsArray(d, c)
    ensures EditHere(Get(d, c).value, t, e).Some?
    ensures Get(ApplyEdit(d, c + [t], e).value, c) == EditHere(Get(d, c).value, t, e)
  {
    EditBelow(d, c, [t], e);
  }

  lemma OtherSpares(d: Json, op: Op, c: Path, n: nat)
    requires ApplyOp(d, op).Some? && Spares(d, op, c) && HasLength(d, c, n) && !Structural(op)
    ensures HasLength(ApplyOp(d, op).value, c, n)
  {
    match op
    case Test(_, _) =>
    case Copy(f, p) => EditAside(d, p, Put(Get(d, f).value), c, n);
    case Move(f, p) =>
      EditAside(d, f, Delete, c, n);
      EditAside(ApplyEdit(d, f, Delete).value, p, Put(Get(d, f).value), c, n);
    case Replace(p, v) =>
      if c < p && |p| == |c| + 1 {
        assert p == c + [p[|c|]];
        EditDirectly(d, c, p[|c|], Overwrite(v));
      } else {
        EditAside(d, p, Overwrite(v), c, n);
      }
  }

  /** An addition or removal directly in the array, valid in the document, is taken by every list of the same length. */
  lemma DirectTaken(d: Json, op: Op, c: Path, xs: seq<Json>)
    requires ApplyOp(d, op).Some? && Structural(op) && c < op.path && |op.path| == |c| + 1 && HasLength(d, c, |xs|)
    ensures Taken(xs, c, op).Success? && HasLength(ApplyOp(d, op).value, c, |Taken(xs, c, op).value|)
  {
    var t := op.path[|c|];
    assert op.path == c + [t] && op.path[|c|..] == [t];
    EditDirectly(d, c, t, EditOf(op));
  }

  lemma InnerLength(xs: seq<Json>, op: Op, c: Path)
    requires Inside(op, c) && Taken(xs, c, op).Success?
    ensures |Taken(xs, c, op).value| == |xs|
  {
  }

  lemma LengthStep(d: Json, op: Op, c: Path, xs: seq<Json>)
    requires ApplyOp(d, op).Some? && Spares(d, op, c) && HasLength(d, c, |xs|) && Taken(xs, c, op).Success?
    ensures HasLength(ApplyOp(d, op).value, c, |Taken(xs, c, op).value|)
  {
    if !Structural(op) {
      OtherSpares(d, op, c, |xs|);
    } else if !(c < op.path) || |op.path| > |c| + 1 {
      EditAside(d, op.path, EditOf(op), c, |xs|);
      if c < op.path { InnerLength(xs, op, c); }
    } else {
      DirectTaken(d, op, c, xs);
    }
  }

  lemma {:induction false} ReplayPrefix(before: Json, patch: seq<Op>, k: nat)
    requires k <= |patch| && Replay(before, patch).Some?
    ensures Replay(before, patch[..k]).Some?
    decreases |patch| - k
  {
    if k == |patch| {
      assert patch[..k] == patch;
    } else {
      ReplayPrefix(before, patch, k + 1);
      assert patch[..k + 1][..k] == patch[..k];
    }
  }

  /** The array and its copy have the same length after every prefix. */
  lemma {:induction false} SameLength(before: Json, patch: seq<Op>, k: nat, c: Path, xs: seq<Json>)
    requires Stands(before, patch, c) && Get(before, c) == Some(Arr(xs)) && k <= |patch|
    requires Replay(before, patch[..k]).Some? && Alone(xs, c, patch[..k]).Success?
    ensures HasLength(Replay(before, patch[..k]).value, c, |Alone(xs, c, patch[..k]).value|)
  {
    if k > 0 {
      assert patch[..k][..k - 1] == patch[..k - 1];
      SameLength(before, patch, k - 1, c, xs);
      LengthStep(Replay(before, patch[..k - 1]).value, patch[k - 1], c, Alone(xs, c, patch[..k - 1]).value);
    }
  }

  // ----- what is rejected ---------------------------------------------------------------------------------------------------

  lemma {:induction false} FirstRaise(lists: Lists, ops: seq<Op>, n: nat) returns (k: nat)
    requires n <= |ops| && ShadowRun(lists, ops[..n]).Failure?
    ensures k < n && ShadowRun(lists, ops[..k]).Success?
    ensures ShadowStep(ShadowRun(lists, ops[..k]).value, ops[k]).Failure?
    ensures ShadowRun(lists, ops[..n]).error == ShadowStep(ShadowRun(lists, ops[..k]).value, ops[k]).error
  {
    assert n > 0 && ops[..n][..n - 1] == ops[..n - 1];
    if ShadowRun(lists, ops[..n - 1]).Failure? {
      k := FirstRaise(lists, ops, n - 1);
    } else {
      k := n - 1;
    }
  }

  lemma {:induction false} AloneFails(items: seq<Json>, c: Path, patch: seq<Op>, k: nat, n: nat)
    requires k < n <= |patch| && Rejected(items, c, patch, k)
    ensures Alone(items, c, patch[..n]).Failure?
    decreases n
  {
    assert patch[..n][..n - 1] == patch[..n - 1];
    if k < n - 1 { AloneFails(items, c, patch, k, n - 1); }
  }

  /** A call that raises does so with the error of the first operation that some copied array rejects. */
  lemma RejectedBy(before: Json, patch: seq<Op>, lists: Lists) returns (c: Path, k: nat)
    requires Flat(patch) && PossibleShadows(before, patch, lists) && ShadowRun(lists, patch).Failure?
    ensures c in lists && k < |patch| && Rejected(lists[c], c, patch, k)
    ensures ShadowRun(lists, patch).error == Taken(Alone(lists[c], c, patch[..k]).value, c, patch[k]).error
    ensures ShadowRun(lists, patch[..k]).Success?
    ensures ShadowRun(lists, patch[..k]).value[c] == Alone(lists[c], c, patch[..k]).value
  {
    assert patch[..|patch|] == patch;
    k := FirstRaise(lists, patch, |patch|);
    c := StepFails(ShadowRun(lists, patch[..k]).value, patch[k]);
    ListsAreContainers(before, patch, lists);
    RunAlone(patch, lists, patch[..k], c);
  }

  lemma RejectedInside(before: Json, patch: seq<Op>, c: Path, xs: seq<Json>, k: nat)
    requires Stands(before, patch, c) && Get(before, c) == Some(Arr(xs)) && Replay(before, patch).Some?
    requires k < |patch| && Rejected(xs, c, patch, k)
    ensures Inside(patch[k], c) && Taken(Alone(xs, c, patch[..k]).value, c, patch[k]).error == PatchConflict
    ensures Replay(before, patch[..k]).Some? && ApplyOp(Replay(before, patch[..k]).value, patch[k]).Some?
  {
    ReplayPrefix(before, patch, k);
    ReplayPrefix(before, patch, k + 1);
    assert patch[..k + 1][..k] == patch[..k];
    SameLength(before, patch, k, c, xs);
    if |patch[k].path| == |c| + 1 {
      DirectTaken(Replay(before, patch[..k]).value, patch[k], c, Alone(xs, c, patch[..k]).value);
    }
  }

  lemma RaisesInside(before: Json, patch: seq<Op>, lists: Lists) returns (c: Path, k: nat)
    requires Flat(patch) && PossibleShadows(before, patch, lists) && Replay(before, patch).Some? && AllStand(before, patch)
    requires ShadowRun(lists, patch).Failure?
    ensures c in lists && StructuralContainer(patch, c) && IsArray(before, c)
    ensures k < |patch| && Inside(patch[k], c) && Rejected(lists[c], c, patch, k)
    ensures ShadowRun(lists, patch).error == PatchConflict
  {
    c, k := RejectedBy(before, patch, lists);
    ListsAreContainers(before, patch, lists);
    ShadowsAreCopies(before, patch, lists);
    RejectedInside(before, patch, c, lists[c], k);
  }

  /**
   For every flat patch that is valid for the document and leaves the lengths of the changed arrays to its additions and
   removals: the call raises exactly when some copy rejects one that is strictly inside an element. It then reports a conflict.
   */
  lemma RaisesOnlyInside(before: Json, patch: seq<Op>, lists: Lists)
    requires Flat(patch) && PossibleShadows(before, patch, lists) && Replay(before, patch).Some? && AllStand(before, patch)
    ensures ShadowRun(lists, patch).Failure? <==>
              exists c, k: nat :: c in lists && k < |patch| && Inside(patch[k], c) && Rejected(lists[c], c, patch, k)
    ensures ShadowRun(lists, patch).Failure? ==> ShadowRun(lists, patch).error == PatchConflict
  {
    if ShadowRun(lists, patch).Failure? {
      var c, k := RaisesInside(before, patch, lists);
    }
    if c, k: nat :| c in lists && k < |patch| && Inside(patch[k], c) && Rejected(lists[c], c, patch, k) {
      RejectionRaises(before, patch, lists, c, k);
    }
  }

  lemma RejectionRaises(before: Json, patch: seq<Op>, lists: Lists, c: Path, k: nat)
    requires Flat(patch) && PossibleShadows(before, patch, lists) && c in lists
    requires k < |patch| && Rejected(lists[c], c, patch, k)
    ensures ShadowRun(lists, patch).Failure?
  {
    AloneFails(lists[c], c, patch, k, |patch|);
    assert patch[..|patch|] == patch;
    RaisesExactly(before, patch, lists);
  }

  // ----- inside an element that was written --------------------------------------------------------------------------------------

  /** Operation k adds or removes strictly inside an element of a changed array, and an earlier operation that the copies do not
      take, like a replace, wrote at, above or inside that element. */
  ghost predicate InsideWritten(before: Json, patch: seq<Op>, c: Path, k: nat)
    requires k < |patch|
  {
    && StructuralContainer(patch, c) && IsArray(before, c) && Inside(patch[k], c)
    && Replay(before, patch[..k]).Some? && !Followed(before, patch, k, true, patch[k].path[..|c| + 1])
  }

  /** An edit strictly inside an element is taken by every list that has the same element there. */
  lemma SameElementTakes(x: Json, xs: seq<Json>, op: Op, rel: Path)
    requires Structural(op) && |rel| > 1 && ApplyEdit(x, rel, EditOf(op)).Some? && Agree(x, Arr(xs), [rel[0]])
    ensures FastListOp(xs, op, rel).Success?
  {
    var v := Child(x, rel[0]).value;
    assert [rel[0]][1..] == [];
    assert Agree(v, Child(Arr(xs), rel[0]).value, []);
  }

  lemma ElementStands(d: Json, p: Path, e: Edit, c: Path)
    requires ApplyEdit(d, p, e).Some? && c < p && |p| > |c| + 1
    ensures Get(d, c).Some? && ApplyEdit(Get(d, c).value, p[|c|..], e).Some? && Get(d, p[..|c| + 1]).Some?
  {
    var q := p[|c|..];
    assert p == c + q && p[..|c| + 1] == c + [q[0]];
    EditBelow(d, c, q, e);
    GetSplit(d, c, [q[0]]);
    assert [q[0]][1..] == [];
  }

  lemma FollowedAgrees(before: Json, patch: seq<Op>, lists: Lists, c: Path, t: Token, k: nat)
    requires Flat(patch) && c in lists && (forall a <- lists :: StructuralContainer(patch, a)) && k <= |patch|
    requires Get(before, c) == Some(Arr(lists[c])) && ShadowRun(lists, patch[..k]).Success?
    requires Replay(before, patch[..k]).Some? && Get(Replay(before, patch[..k]).value, c + [t]).Some?
    requires Followed(before, patch, k, true, c + [t])
    ensures Get(Replay(before, patch[..k]).value, c).Some?
    ensures Agree(Get(Replay(before, patch[..k]).value, c).value, Arr(ShadowRun(lists, patch[..k]).value[c]), [t])
  {
    CopyTakesAll(before, patch, lists.Keys, k, c, c + [t]);
    CopyAgrees(before, lists, patch, k, c, [t]);
  }

  lemma AgreeingTakes(d: Json, op: Op, c: Path, xs: seq<Json>)
    requires ApplyOp(d, op).Some? && Inside(op, c) && Get(d, c).Some?
    requires Agree(Get(d, c).value, Arr(xs), [op.path[|c|]])
    ensures Taken(xs, c, op).Success?
  {
    ElementStands(d, op.path, EditOf(op), c);
    SameElementTakes(Get(d, c).value, xs, op, op.path[|c|..]);
  }

  lemma RejectedWasWritten(before: Json, patch: seq<Op>, lists: Lists, c: Path, k: nat)
    requires Flat(patch) && c in lists && (forall a <- lists :: StructuralContainer(patch, a)) && k < |patch|
    requires Inside(patch[k], c) && Get(before, c) == Some(Arr(lists[c])) && ShadowRun(lists, patch[..k]).Success?
    requires Replay(before, patch[..k]).Some? && ApplyOp(Replay(before, patch[..k]).value, patch[k]).Some?
    requires Taken(ShadowRun(lists, patch[..k]).value[c], c, patch[k]).Failure?
    ensures InsideWritten(before, patch, c, k)
  {
    var op, d := patch[k], Replay(before, patch[..k]).value;
    ElementStands(d, op.path, EditOf(op), c);
    assert op.path[..|c| + 1] == c + [op.path[|c|]];
    if Followed(before, patch, k, true, c + [op.path[|c|]]) {
      FollowedAgrees(before, patch, lists, c, op.path[|c|], k);
      AgreeingTakes(d, op, c, ShadowRun(lists, patch[..k]).value[c]);
    }
  }

  /**
   For every flat patch that is valid for the document and leaves the lengths of the changed arrays to its additions and
   removals: when the call raises, it reports a conflict, and the patch adds or removes strictly inside an element that was
   written before.
   */
  lemma RaisesOnlyWhereWritten(before: Json, patch: seq<Op>, r: Result<Option<seq<Change>>, Error>)
    requires Flat(patch) && Replay(before, patch).Some? && AllStand(before, patch)
    requires PossibleResult(before, patch, r) && r.Failure?
    ensures r.error == PatchConflict
    ensures exists c, k: nat :: k < |patch| && InsideWritten(before, patch, c, k)
  {
    var lists :| PossibleShadows(before, patch, lists) && r == ChangesResult(before, lists, patch);
    var c, k := RejectedBy(before, patch, lists);
    ListsAreContainers(before, patch, lists);
    ShadowsAreCopies(before, patch, lists);
    RejectedInside(before, patch, c, lists[c], k);
    RejectedWasWritten(before, patch, lists, c, k);
  }
}
