/**
 Which patches `json_changes` handles, judged by the text of the patch alone: as long as the containers it finds do not lie
 inside one another, are not the root and are not hidden by a newline, it copies exactly the arrays it has to.
 */
module JsonFlatPatches {
  import opened Sequences
  import opened Wrappers
  import opened JsonDocument
  import opened JsonShadow
  import opened JsonChanges
  import opened JsonReplaced
  import opened JsonShadowInvariant

  // ----- the conditions ------------------------------------------------------------------------------------------

  predicate NewlineFree(p: Path) {
    forall t <- p :: !HasNewline(t)
  }

  /** No path of an addition or removal has a newline or names a position of the root, and no container, whether an
      array or not, lies inside another. */
  ghost predicate Flat(patch: seq<Op>) {
    && (forall op <- patch :: Structural(op) ==> NewlineFree(op.path) && ArrayOf(op.path) != Some([]))
    && (forall a, c :: StructuralContainer(patch, a) && StructuralContainer(patch, c) ==> !(a < c))
  }

  /** Some container above p is an array of the document. */
  ghost predicate Covered(before: Json, patch: seq<Op>, p: Path) {
    exists c :: StructuralContainer(patch, c) && c < p && IsArray(before, c)
  }

  /**
   No operation before number k wrote at or above the element that is at r when operation k runs, and none wrote inside
   it, other than additions and removals inside an element that is covered. The element is followed back through every
   addition and removal of the patch.
   */
  predicate Followed(before: Json, patch: seq<Op>, k: nat, covered: bool, r: Path)
    requires k <= |patch| && Replay(before, patch[..k]).Some?
  {
    if k == 0 then true
    else
      assert patch[..k][..k - 1] == patch[..k - 1];
      var op := patch[k - 1];
      var d := Replay(before, patch[..k - 1]).value;
      if Structural(op) && (r < op.path ==> covered) then
        match Back(d, op.path, EditOf(op), r)
        case Some(r') => Followed(before, patch, k - 1, covered, r')
        case None => false
      else !OpTouches(d, op, r) && Followed(before, patch, k - 1, covered, r)
  }

  // ----- containers of a flat patch ---------------------------------------------------------------------------------

  /** At most one container lies above a path. */
  lemma OneContainer(patch: seq<Op>, a: Path, c: Path, r: Path)
    requires Flat(patch) && StructuralContainer(patch, a) && StructuralContainer(patch, c) && a < r && c < r
    ensures a == c
  {
    assert a == r[..|a|] && c == r[..|c|];
    assert |a| < |c| ==> a < c;
    assert |c| < |a| ==> c < a;
  }

  /** Every addition or removal at an array position is found by the pattern. */
  lemma PositionIsContainer(patch: seq<Op>, op: Op)
    requires Flat(patch) && op in patch && Structural(op) && op.path != [] && op.path[|op.path| - 1].Num?
    ensures StructuralContainer(patch, op.path[..|op.path| - 1])
  {
    assert ArrayOf(op.path) == Some(op.path[..|op.path| - 1]);
  }

  lemma NotTheRoot(patch: seq<Op>, c: Path)
    requires Flat(patch) && StructuralContainer(patch, c)
    ensures c != []
  {
  }

  /** The container above a path is the one that the code takes, if it is copied at all. */
  lemma SourceIs(patch: seq<Op>, cs: set<Path>, c: Path, p: Path)
    requires Flat(patch) && c in cs && c < p && forall a <- cs :: StructuralContainer(patch, a)
    ensures Source(p, cs) == Some(c)
  {
    NotTheRoot(patch, c);
    OneContainer(patch, Active(p, cs).value, c, p);
  }

  /** Whatever the order, the container above a replace is copied when it is an array. */
  lemma Copied(before: Json, patch: seq<Op>, lists: Lists, op: Op, c: Path)
    requires Flat(patch) && PossibleShadows(before, patch, lists)
    requires op in patch && op.Replace? && StructuralContainer(patch, c) && c < op.path && IsArray(before, c)
    ensures c in lists && Source(op.path, lists.Keys) == Some(c)
  {
    var tracked := TrackingOf(before, patch, lists);
    assert BelowStructural(patch, op.path);
    var a :| a in tracked && a < op.path;
    OneContainer(patch, a, c, op.path);
    ListsAreContainers(before, patch, lists);
    SourceIs(patch, lists.Keys, c, op.path);
  }

  lemma NotCovered(before: Json, patch: seq<Op>, lists: Lists, p: Path)
    requires PossibleShadows(before, patch, lists) && !Covered(before, patch, p)
    ensures Source(p, lists.Keys).None?
  {
    ListsAreContainers(before, patch, lists);
  }

  // ----- one operation seen from an element ----------------------------------------------------------------------------

  lemma NotTouchedStays(d: Json, p: Path, e: Edit, r: Path)
    requires !Touches(d, p, e, r)
    ensures Back(d, p, e, r) == Some(r)
  {
  }

  /** An addition or removal that moves an element without writing it shifts an array that is a container above it. */
  lemma ShiftsInContainer(d: Json, patch: seq<Op>, op: Op, r: Path)
    requires Flat(patch) && op in patch && Structural(op) && ApplyOp(d, op).Some? && Get(ApplyOp(d, op).value, r).Some?
    requires Back(d, op.path, EditOf(op), r).Some? && Touches(d, op.path, EditOf(op), r) && !(r < op.path)
    ensures op.path != []
    ensures var a := op.path[..|op.path| - 1]; StructuralContainer(patch, a) && a < r && IsArray(d, a)
  {
    var p, e := op.path, EditOf(op);
    assert r <= p ==> r == p;
    assert ShiftSlot(d, p, e).Some?;
    var m := |p| - 1;
    var a := p[..m];
    assert a < r by { assert p <= r || AtOrAfter(p, ShiftSlot(d, p, e).value, r); }
    if p[m] == DASH {
      Appended(d, a, op, r);
      assert false;
    }
    PositionIsContainer(patch, op);
  }

  /** After an append, what exists in the array exists at a position up to the new one. */
  lemma Appended(d: Json, a: Path, op: Op, r: Path)
    requires op.Add? && op.path == a + [DASH] && a < r && IsArray(d, a)
    requires ApplyOp(d, op).Some? && Get(ApplyOp(d, op).value, r).Some?
    ensures r[|a|].Num? && r[|a|].n <= |Get(d, a).value.items|
  {
    EditBelow(d, a, [DASH], EditOf(op));
    var d' := ApplyOp(d, op).value;
    assert r == a + r[|a|..];
    GetSplit(d', a, r[|a|..]);
  }

  lemma {:induction false} EditKeepsArray(x: Json, rel: Path, e: Edit)
    requires rel != [] && ApplyEdit(x, rel, e).Some?
    ensures ApplyEdit(x, rel, e).value.Arr? == x.Arr?
  {
  }

  /** An edit that writes elsewhere, or inside c, leaves c an array or not. */
  lemma EditLeavesArray(d: Json, p: Path, e: Edit, c: Path, r: Path)
    requires ApplyEdit(d, p, e).Some? && c <= r && (c < p || !Touches(d, p, e, r))
    ensures IsArray(ApplyEdit(d, p, e).value, c) <==> IsArray(d, c)
  {
    if c < p {
      var q := p[|c|..];
      assert p == c + q;
      EditBelow(d, c, q, e);
      EditKeepsArray(Get(d, c).value, q, e);
    } else {
      NotAbove(d, p, e, c, r);
      UntouchedStays(d, p, e, c);
    }
  }

  lemma NotAbove(d: Json, p: Path, e: Edit, c: Path, r: Path)
    requires c <= r && !(c < p) && !Touches(d, p, e, r)
    ensures !Touches(d, p, e, c)
  {
    assert forall k: nat :: p != [] && AtOrAfter(p, k, c) ==> AtOrAfter(p, k, r);
  }

  lemma OpLeavesArray(d: Json, op: Op, c: Path, r: Path)
    requires ApplyOp(d, op).Some? && c <= r && !OpTouches(d, op, r)
    ensures IsArray(ApplyOp(d, op).value, c) <==> IsArray(d, c)
  {
    match op
    case Test(_, _) =>
    case Copy(f, p) => EditLeavesArray(d, p, Put(Get(d, f).value), c, r);
    case Move(f, p) =>
      EditLeavesArray(d, f, Delete, c, r);
      EditLeavesArray(ApplyEdit(d, f, Delete).value, p, Put(Get(d, f).value), c, r);
    case _ => EditLeavesArray(d, op.path, EditOf(op), c, r);
  }

  // ----- one step back --------------------------------------------------------------------------------------------------

  /** What Followed asks of one operation; r' is where the element was. */
  predicate StepsBack(d: Json, op: Op, covered: bool, r: Path, r': Path) {
    if Structural(op) && (r < op.path ==> covered) then Back(d, op.path, EditOf(op), r) == Some(r')
    else r' == r && !OpTouches(d, op, r)
  }

  lemma OneBack(before: Json, patch: seq<Op>, k: nat, covered: bool, r: Path) returns (r': Path)
    requires 0 < k <= |patch| && Replay(before, patch[..k]).Some? && Followed(before, patch, k, covered, r)
    ensures Replay(before, patch[..k - 1]).Some?
    ensures Replay(before, patch[..k]) == ApplyOp(Replay(before, patch[..k - 1]).value, patch[k - 1])
    ensures StepsBack(Replay(before, patch[..k - 1]).value, patch[k - 1], covered, r, r')
    ensures Followed(before, patch, k - 1, covered, r')
  {
    assert patch[..k][..k - 1] == patch[..k - 1];
    var op, d := patch[k - 1], Replay(before, patch[..k - 1]).value;
    if Structural(op) && (r < op.path ==> covered) {
      r' := Back(d, op.path, EditOf(op), r).value;
    } else {
      r' := r;
    }
  }

  lemma ExistedBefore(d: Json, op: Op, covered: bool, r: Path, r': Path)
    requires ApplyOp(d, op).Some? && Get(ApplyOp(d, op).value, r).Some? && StepsBack(d, op, covered, r, r')
    ensures Get(d, r').Some?
  {
    if Structural(op) && (r < op.path ==> covered) {
      BackExists(d, op.path, EditOf(op), r);
    } else {
      OpElsewhereStays(d, op, r);
    }
  }

  /** A container above an element stays above it, and stays an array or not, as the element is followed back. */
  lemma ContainerStays(d: Json, patch: seq<Op>, op: Op, covered: bool, c: Path, r: Path, r': Path)
    requires Flat(patch) && op in patch && StructuralContainer(patch, c) && c < r
    requires ApplyOp(d, op).Some? && Get(ApplyOp(d, op).value, r).Some? && StepsBack(d, op, covered, r, r')
    ensures c < r' && (IsArray(ApplyOp(d, op).value, c) <==> IsArray(d, c))
  {
    if Structural(op) && (r < op.path ==> covered) {
      var e := EditOf(op);
      if !Touches(d, op.path, e, r) {
        NotTouchedStays(d, op.path, e, r);
        OpLeavesArray(d, op, c, r);
      } else if r < op.path {
        InsideStays(d, op.path, e, r);
        EditLeavesArray(d, op.path, e, c, r);
      } else {
        ShiftsInContainer(d, patch, op, r);
        OneContainer(patch, op.path[..|op.path| - 1], c, r);
        EditLeavesArray(d, op.path, e, c, r);
        BackBeyond(d, op.path, e, r);
      }
    } else {
      OpLeavesArray(d, op, c, r);
    }
  }

  /** An edit strictly inside an element does not move it. */
  lemma InsideStays(d: Json, p: Path, e: Edit, r: Path)
    requires r < p
    ensures Back(d, p, e, r) == Some(r)
  {
  }

  /** A shift keeps an element inside the array. */
  lemma BackBeyond(d: Json, p: Path, e: Edit, r: Path)
    requires p != [] && p[..|p| - 1] < r && Back(d, p, e, r).Some?
    ensures p[..|p| - 1] < Back(d, p, e, r).value
  {
  }

  lemma {:induction false} ContainerWas(before: Json, patch: seq<Op>, k: nat, covered: bool, c: Path, r: Path)
    requires Flat(patch) && StructuralContainer(patch, c) && c < r
    requires k <= |patch| && Replay(before, patch[..k]).Some? && Followed(before, patch, k, covered, r)
    requires Get(Replay(before, patch[..k]).value, r).Some?
    ensures IsArray(Replay(before, patch[..k]).value, c) <==> IsArray(before, c)
  {
    if k > 0 {
      var r' := OneBack(before, patch, k, covered, r);
      var d := Replay(before, patch[..k - 1]).value;
      ExistedBefore(d, patch[k - 1], covered, r, r');
      ContainerStays(d, patch, patch[k - 1], covered, c, r, r');
      ContainerWas(before, patch, k - 1, covered, c, r');
    }
  }

  // ----- the copies take what they have to ----------------------------------------------------------------------------

  lemma StepIsTracked(d: Json, patch: seq<Op>, cs: set<Path>, op: Op, c: Path, r: Path, r': Path)
    requires Flat(patch) && op in patch && c in cs && c < r && forall a <- cs :: StructuralContainer(patch, a)
    requires ApplyOp(d, op).Some? && Get(ApplyOp(d, op).value, r).Some? && StepsBack(d, op, true, r, r')
    ensures if Tracked(op, cs, Some(c)) then Back(d, op.path, EditOf(op), r) == Some(r')
            else r' == r && !OpTouches(d, op, r)
  {
    if Structural(op) {
      if c < op.path {
        SourceIs(patch, cs, c, op.path);
      } else {
        if Touches(d, op.path, EditOf(op), r) {
          ShiftsInContainer(d, patch, op, r);
          OneContainer(patch, op.path[..|op.path| - 1], c, r);
        } else {
          NotTouchedStays(d, op.path, EditOf(op), r);
        }
        assert !Tracked(op, cs, Some(c));
      }
    }
  }

  lemma {:induction false} CopyTakesAll(before: Json, patch: seq<Op>, cs: set<Path>, k: nat, c: Path, r: Path)
    requires Flat(patch) && c in cs && c < r && forall a <- cs :: StructuralContainer(patch, a)
    requires k <= |patch| && Replay(before, patch[..k]).Some? && Followed(before, patch, k, true, r)
    requires Get(Replay(before, patch[..k]).value, r).Some?
    ensures Untouched(before, cs, patch, k, Some(c), r)
  {
    if k > 0 {
      assert patch[..k][..k - 1] == patch[..k - 1];
      var r' := OneBack(before, patch, k, true, r);
      var d, op := Replay(before, patch[..k - 1]).value, patch[k - 1];
      ExistedBefore(d, op, true, r, r');
      ContainerStays(d, patch, op, true, c, r, r');
      StepIsTracked(d, patch, cs, op, c, r, r');
      CopyTakesAll(before, patch, cs, k - 1, c, r');
    }
  }

  lemma StepIsElsewhere(before: Json, patch: seq<Op>, k: nat, r: Path, r': Path)
    requires Flat(patch) && !Covered(before, patch, r)
    requires 0 < k <= |patch| && Replay(before, patch[..k]).Some? && Replay(before, patch[..k - 1]).Some?
    requires Replay(before, patch[..k]) == ApplyOp(Replay(before, patch[..k - 1]).value, patch[k - 1])
    requires Get(Replay(before, patch[..k]).value, r).Some?
    requires StepsBack(Replay(before, patch[..k - 1]).value, patch[k - 1], false, r, r')
    requires Followed(before, patch, k - 1, false, r')
    ensures r' == r && !OpTouches(Replay(before, patch[..k - 1]).value, patch[k - 1], r)
  {
    var op, d := patch[k - 1], Replay(before, patch[..k - 1]).value;
    if Structural(op) && !(r < op.path) {
      var e := EditOf(op);
      if Touches(d, op.path, e, r) {
        ShiftsInContainer(d, patch, op, r);
        var a := op.path[..|op.path| - 1];
        BackBeyond(d, op.path, e, r);
        ExistedBefore(d, op, false, r, r');
        ContainerWas(before, patch, k - 1, false, a, r');
        assert false;
      }
      NotTouchedStays(d, op.path, e, r);
    }
  }

  lemma {:induction false} NothingToTake(before: Json, patch: seq<Op>, cs: set<Path>, k: nat, r: Path)
    requires Flat(patch) && !Covered(before, patch, r)
    requires k <= |patch| && Replay(before, patch[..k]).Some? && Followed(before, patch, k, false, r)
    requires Get(Replay(before, patch[..k]).value, r).Some?
    ensures Untouched(before, cs, patch, k, None, r)
  {
    if k > 0 {
      assert patch[..k][..k - 1] == patch[..k - 1];
      var r' := OneBack(before, patch, k, false, r);
      StepIsElsewhere(before, patch, k, r, r');
      OpElsewhereStays(Replay(before, patch[..k - 1]).value, patch[k - 1], r);
      NothingToTake(before, patch, cs, k - 1, r);
    }
  }

  /**
   Main result. For every document, every flat patch and every order in which the containers are met: the value reported
   for a replace of an element that was not written before is the value there of d, the whole document once all earlier
   operations have been applied to it.
   */
  lemma ReplacedIsOverwritten(before: Json, lists: Lists, patch: seq<Op>, k: nat, d: Json)
    requires Flat(patch) && PossibleShadows(before, patch, lists) && ShadowRun(lists, patch).Success?
    requires k < |patch| && patch[k].Replace?
    requires Replay(before, patch[..k]) == Some(d) && ApplyOp(d, patch[k]).Some?
    requires Followed(before, patch, k, Covered(before, patch, patch[k].path), patch[k].path)
    ensures Get(d, patch[k].path) == Some(AllChanges(before, lists, patch)[k].replaced)
  {
    var p := patch[k].path;
    OverwriteExists(d, p, patch[k].value);
    ListsAreContainers(before, patch, lists);
    ShadowsAreCopies(before, patch, lists);
    if Covered(before, patch, p) {
      var c :| StructuralContainer(patch, c) && c < p && IsArray(before, c);
      Copied(before, patch, lists, patch[k], c);
      CopyTakesAll(before, patch, lists.Keys, k, c, p);
    } else {
      NotCovered(before, patch, lists, p);
      NothingToTake(before, patch, lists.Keys, k, p);
    }
    TrackedIsOverwritten(before, lists, patch, k, d);
  }

  // ----- whole calls ----------------------------------------------------------------------------------------------------

  /** No addition or removal replaces a container or what holds it. */
  ghost predicate Steady(patch: seq<Op>) {
    forall op, c :: op in patch && Structural(op) && StructuralContainer(patch, c) ==> !(op.path <= c)
  }

  lemma FlatIsIsolated(before: Json, patch: seq<Op>, lists: Lists, c: Path)
    requires Flat(patch) && Steady(patch) && PossibleShadows(before, patch, lists) && c in lists
    ensures Isolated(patch, lists.Keys, c)
  {
    ListsAreContainers(before, patch, lists);
    forall op | op in patch && Structural(op) && op.path != [] && op.path[|op.path| - 1].Num?
      ensures !(op.path[..|op.path| - 1] < c)
    {
      PositionIsContainer(patch, op);
    }
  }

  /** The shadow invariant for a flat and steady patch: after any prefix every copy is the tracked array of the document that
      takes only the additions and removals, and none of these has been rejected. */
  lemma CopiesAreArrays(before: Json, lists: Lists, patch: seq<Op>, k: nat, d: Json)
    requires Flat(patch) && Steady(patch) && PossibleShadows(before, patch, lists)
    requires k <= |patch| && StructuralReplay(before, patch[..k]) == Some(d)
    ensures ShadowRun(lists, patch[..k]).Success?
    ensures forall c <- lists :: Get(d, c) == Some(Arr(ShadowRun(lists, patch[..k]).value[c]))
  {
    ListsAreContainers(before, patch, lists);
    ShadowsAreCopies(before, patch, lists);
    forall c | c in lists ensures c != [] && Isolated(patch, lists.Keys, c) {
      NotTheRoot(patch, c);
      FlatIsIsolated(before, patch, lists, c);
    }
    ShadowInvariant(before, lists, patch, k);
  }

  /** For a flat and steady patch whose additions and removals are valid by themselves, the call raises nothing. */
  lemma FlatSucceeds(before: Json, patch: seq<Op>, r: Result<Option<seq<Change>>, Error>, last: Json)
    requires Flat(patch) && Steady(patch) && StructuralReplay(before, patch) == Some(last)
    requires PossibleResult(before, patch, r)
    ensures r.Success? && (patch != [] ==> r.value.Some? && |r.value.value| == |patch|)
  {
    var lists :| PossibleShadows(before, patch, lists) && r == ChangesResult(before, lists, patch);
    FlatRuns(before, patch, lists, last);
  }

  lemma FlatRuns(before: Json, patch: seq<Op>, lists: Lists, last: Json)
    requires Flat(patch) && Steady(patch) && StructuralReplay(before, patch) == Some(last)
    requires PossibleShadows(before, patch, lists)
    ensures ShadowRun(lists, patch).Success?
  {
    assert patch[..|patch|] == patch;
    CopiesAreArrays(before, lists, patch, |patch|, last);
  }

  /** One operation taken by the array at c, which ignores what is not an addition or removal below it. */
  function Taken(items: seq<Json>, c: Path, op: Op): Result<seq<Json>, Error> {
    if Structural(op) && c < op.path then FastListOp(items, op, op.path[|c|..]) else Success(items)
  }

  function Alone(items: seq<Json>, c: Path, ops: seq<Op>): Result<seq<Json>, Error> {
    if ops == [] then Success(items)
    else match Alone(items, c, ops[..|ops| - 1])
         case Failure(e) => Failure(e)
         case Success(xs) => Taken(xs, c, ops[|ops| - 1])
  }

  lemma StepAlone(patch: seq<Op>, ls: Lists, op: Op, c: Path)
    requires Flat(patch) && c in ls && forall a <- ls :: StructuralContainer(patch, a)
    requires ShadowStep(ls, op).Success?
    ensures Taken(ls[c], c, op) == Success(ShadowStep(ls, op).value[c])
  {
    if c < op.path {
      SourceIs(patch, ls.Keys, c, op.path);
    }
  }

  lemma StepFails(ls: Lists, op: Op) returns (c: Path)
    requires ShadowStep(ls, op).Failure?
    ensures c in ls && Taken(ls[c], c, op).Failure? && Taken(ls[c], c, op).error == ShadowStep(ls, op).error
  {
    c := Source(op.path, ls.Keys).value;
  }

  lemma {:induction false} RunAlone(patch: seq<Op>, lists: Lists, ops: seq<Op>, c: Path)
    requires Flat(patch) && c in lists && (forall a <- lists :: StructuralContainer(patch, a))
    requires (forall op <- ops :: op in patch) && ShadowRun(lists, ops).Success?
    ensures Alone(lists[c], c, ops) == Success(ShadowRun(lists, ops).value[c])
  {
    if ops != [] {
      var n := |ops| - 1;
      assert ops[n] in ops && forall op <- ops[..n] :: op in ops;
      RunAlone(patch, lists, ops[..n], c);
      StepAlone(patch, ShadowRun(lists, ops[..n]).value, ops[n], c);
    }
  }

  lemma {:induction false} RunFailsAlone(patch: seq<Op>, lists: Lists, ops: seq<Op>) returns (c: Path)
    requires Flat(patch) && (forall a <- lists :: StructuralContainer(patch, a))
    requires (forall op <- ops :: op in patch) && ShadowRun(lists, ops).Failure?
    ensures c in lists && Alone(lists[c], c, ops).Failure?
  {
    var n := |ops| - 1;
    assert ops[n] in ops && forall op <- ops[..n] :: op in ops;
    if ShadowRun(lists, ops[..n]).Failure? {
      c := RunFailsAlone(patch, lists, ops[..n]);
    } else {
      c := StepFails(ShadowRun(lists, ops[..n]).value, ops[n]);
      RunAlone(patch, lists, ops[..n], c);
    }
  }

  /** The copies do not depend on each other: a call for a flat patch raises exactly when some copied array, by itself, does
      not take the additions and removals below it. */
  lemma RaisesExactly(before: Json, patch: seq<Op>, lists: Lists)
    requires Flat(patch) && PossibleShadows(before, patch, lists)
    ensures ShadowRun(lists, patch).Failure? <==> exists c :: c in lists && Alone(lists[c], c, patch).Failure?
  {
    ListsAreContainers(before, patch, lists);
    if ShadowRun(lists, patch).Failure? {
      var c := RunFailsAlone(patch, lists, patch);
    } else {
      forall c | c in lists ensures Alone(lists[c], c, patch).Success? { RunAlone(patch, lists, patch, c); }
    }
  }

  /** What a caller of `json_changes` gets: operation k with the value it overwrites. */
  lemma ResultIsOverwritten(before: Json, patch: seq<Op>, r: Result<Option<seq<Change>>, Error>, k: nat, d: Json)
    requires Flat(patch) && PossibleResult(before, patch, r) && r.Success?
    requires k < |patch| && patch[k].Replace?
    requires Replay(before, patch[..k]) == Some(d) && ApplyOp(d, patch[k]).Some?
    requires Followed(before, patch, k, Covered(before, patch, patch[k].path), patch[k].path)
    ensures r.value.Some? && |r.value.value| == |patch|
    ensures r.value.value[k].op == patch[k] && Get(d, patch[k].path) == Some(r.value.value[k].replaced)
  {
    var lists :| PossibleShadows(before, patch, lists) && r == ChangesResult(before, lists, patch);
    ReplacedIsOverwritten(before, lists, patch, k, d);
    ChangeOf(before, lists, patch, k);
  }

  // ----- the order in which containers are met ---------------------------------------------------------------------------

  predicate OnlyContainer(patch: seq<Op>, cs: set<Path>, c: Path, p: Path) {
    c < p && forall a <- cs :: a < p ==> a == c
  }

  function Containers(patch: seq<Op>): (cs: set<Path>)
    ensures forall c :: c in cs <==> StructuralContainer(patch, c)
  {
    set op | op in patch && Structural(op) && ArrayOf(op.path).Some? :: ArrayOf(op.path).value
  }

  /** Every container that is an array with a replace below it is the only container above some replace. */
  predicate OrderFree(before: Json, patch: seq<Op>) {
    forall c <- Containers(patch) :: ReplacesBelow(patch, c) && IsArray(before, c) ==> Needed(patch, c)
  }

  predicate Needed(patch: seq<Op>, c: Path) {
    exists op <- patch :: op.Replace? && OnlyContainer(patch, Containers(patch), c, op.path)
  }

  lemma NeededIsTracked(patch: seq<Op>, tracked: set<Path>, c: Path)
    requires ValidTracking(patch, tracked) && StructuralContainer(patch, c) && Needed(patch, c)
    ensures c in tracked
  {
    var op :| op in patch && op.Replace? && OnlyContainer(patch, Containers(patch), c, op.path);
    assert BelowStructural(patch, op.path);
    var a :| a in tracked && a < op.path;
  }

  /** A container that is not needed is not the only one above a replace. */
  lemma SomeOther(patch: seq<Op>, op: Op, c: Path) returns (a: Path)
    requires op in patch && op.Replace? && c < op.path && !Needed(patch, c)
    ensures StructuralContainer(patch, a) && a != c && a < op.path
  {
    assert !OnlyContainer(patch, Containers(patch), c, op.path);
    a :| a in Containers(patch) && a < op.path && a != c;
  }

  lemma {:induction false} FirstInAppend(order: seq<Path>, c: Path, p: Path)
    ensures FirstIn(order + [c], p) == if FirstIn(order, p).Some? then FirstIn(order, p) else if c < p then Some(c) else None
  {
    if order == [] {
      assert order + [c] == [c];
    } else {
      assert (order + [c])[1..] == order[1..] + [c];
      FirstInAppend(order[1..], c, p);
    }
  }

  /** A container that comes first is tracked when it lies above a replace. */
  lemma FirstIsTracked(patch: seq<Op>, c: Path, rest: seq<Path>)
    requires ReplacesBelow(patch, c)
    ensures c in TrackedBy(patch, [c] + rest)
  {
    var op :| op in patch && op.Replace? && c < op.path;
    assert FirstIn([c] + rest, op.path) == Some(c);
  }

  /** One that comes last is tracked only when it is needed. */
  lemma LastIsNotTracked(patch: seq<Op>, rest: seq<Path>, c: Path)
    requires OrderOf(patch, rest + [c]) && c !in rest && !Needed(patch, c)
    ensures c !in TrackedBy(patch, rest + [c])
  {
    forall op | op in patch && op.Replace? ensures FirstIn(rest + [c], op.path) != Some(c) {
      FirstInAppend(rest, c, op.path);
      if c < op.path {
        var a := SomeOther(patch, op, c);
        assert a in rest + [c] && a in rest;
      }
    }
  }

  ghost predicate OneOutcome(before: Json, patch: seq<Op>) {
    forall a, b :: PossibleShadows(before, patch, a) && PossibleShadows(before, patch, b) ==> a == b
  }

  /** The copies are independent of the order exactly when the patch is order-free for the document. */
  lemma OrderFreeExactly(before: Json, patch: seq<Op>)
    ensures OneOutcome(before, patch) <==> OrderFree(before, patch)
  {
    if OrderFree(before, patch) {
      forall a, b | PossibleShadows(before, patch, a) && PossibleShadows(before, patch, b) ensures a == b {
        SameLists(before, patch, a, b);
        SameLists(before, patch, b, a);
        assert a.Keys == b.Keys;
      }
    } else {
      var a, b := TwoOutcomes(before, patch);
    }
  }

  lemma TwoOutcomes(before: Json, patch: seq<Op>) returns (a: Lists, b: Lists)
    requires !OrderFree(before, patch)
    ensures PossibleShadows(before, patch, a) && PossibleShadows(before, patch, b) && a != b
  {
    var c := Unneeded(before, patch);
    var rest := SomeSequence(Containers(patch) - {c});
    var first, last := [c] + rest, rest + [c];
    assert OrderOf(patch, first) && OrderOf(patch, last);
    Possible(before, patch, first, TrackedBy(patch, first));
    Possible(before, patch, last, TrackedBy(patch, last));
    FirstIsTracked(patch, c, rest);
    LastIsNotTracked(patch, rest, c);
    a, b := ShadowArrays(before, TrackedBy(patch, first)), ShadowArrays(before, TrackedBy(patch, last));
    assert c in a && c !in b;
  }

  lemma Unneeded(before: Json, patch: seq<Op>) returns (c: Path)
    requires !OrderFree(before, patch)
    ensures StructuralContainer(patch, c) && ReplacesBelow(patch, c) && IsArray(before, c) && !Needed(patch, c)
  {
    c :| c in Containers(patch) && ReplacesBelow(patch, c) && IsArray(before, c) && !Needed(patch, c);
  }

  lemma SameLists(before: Json, patch: seq<Op>, a: Lists, b: Lists)
    requires OrderFree(before, patch) && PossibleShadows(before, patch, a) && PossibleShadows(before, patch, b)
    ensures forall c <- a :: c in b && a[c] == b[c]
  {
    var s := TrackingOf(before, patch, a);
    var t := TrackingOf(before, patch, b);
    forall c | c in a ensures c in b && a[c] == b[c] {
      assert c in Containers(patch) && ReplacesBelow(patch, c);
      NeededIsTracked(patch, t, c);
    }
  }

  /** The copies of a flat patch do not depend on the order. */
  lemma FlatIsOrderFree(before: Json, patch: seq<Op>)
    requires Flat(patch)
    ensures OrderFree(before, patch) && OneOutcome(before, patch)
  {
    forall c | c in Containers(patch) && ReplacesBelow(patch, c) ensures Needed(patch, c) {
      var op :| op in patch && op.Replace? && c < op.path;
      forall a | a in Containers(patch) && a < op.path ensures a == c { OneContainer(patch, a, c, op.path); }
      assert OnlyContainer(patch, Containers(patch), c, op.path);
    }
    OrderFreeExactly(before, patch);
  }
}
