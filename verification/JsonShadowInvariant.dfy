/**
 While no array changed by the patch lies inside another, every copy is exactly the tracked array of the document that
 takes the additions and removals of the patch, and the copies reject nothing that RFC 6902 accepts.
 */
module JsonShadowInvariant {
  import opened Wrappers
  import opened JsonDocument
  import opened JsonChanges
  import Decimal

  /** The document after only the additions and removals of a patch. */
  function StructuralReplay(d: Json, ops: seq<Op>): Option<Json> {
    if ops == [] then Some(d)
    else
      var last := ops[|ops| - 1];
      match StructuralReplay(d, ops[..|ops| - 1])
      case None => None
      case Some(d') => if Structural(last) then ApplyOp(d', last) else Some(d')
  }

  /** No addition or removal replaces c, removes it or shifts an array above it, and no tracked array lies inside c. */
  predicate Isolated(patch: seq<Op>, cs: set<Path>, c: Path) {
    && (forall c' <- cs :: !(c < c'))
    && (forall op <- patch :: Structural(op) ==>
          && !(op.path <= c)
          && (op.path != [] && op.path[|op.path| - 1].Num? ==> !(op.path[..|op.path| - 1] < c)))
  }

  /** On a single token the insert and pop of the hot path agree with RFC 6902 wherever that allows the operation;
      on longer paths the fallback is RFC 6902 itself. */
  lemma FastIsGeneral(target: seq<Json>, op: Op, rel: Path)
    requires Structural(op) && rel != [] && ApplyEdit(Arr(target), rel, EditOf(op)).Some?
    ensures FastListOp(target, op, rel).Success?
    ensures ApplyEdit(Arr(target), rel, EditOf(op)) == Some(Arr(FastListOp(target, op, rel).value))
  {
    if |rel| > 1 {
      assert ApplyEdit(Arr(target), rel, EditOf(op)).value.Arr?;
    }
  }

  /** Where RFC 6902 allows nothing the hot path still adds behind the end; other removals and tokens are errors. A token of
      digits that is no canonical numeral is read as the number it stands for. */
  lemma HotPathElsewhere(target: seq<Json>, v: Json, t: Token)
    ensures t.Num? && t.n >= |target| ==>
      && FastListOp(target, Add([t], v), [t]) == Success(target + [v])
      && FastListOp(target, Remove([t]), [t]) == Failure(IndexError)
    ensures t.Name? && !Decimal.AllDigits(t.s) ==>
      && FastListOp(target, Remove([t]), [t]) == Failure(ValueError)
      && (t.s != "-" ==> FastListOp(target, Add([t], v), [t]) == Failure(ValueError))
    ensures t.Name? && Decimal.AllDigits(t.s) ==>
      var n := Num(Decimal.FromText(t.s));
      && FastListOp(target, Add([t], v), [t]) == FastListOp(target, Add([n], v), [n])
      && FastListOp(target, Remove([t]), [t]) == FastListOp(target, Remove([n]), [n])
  {
    assert Insert(target, |target|, v) == target + [v];
    if t == DASH { assert !Decimal.IsDigit("-"[0]); }
  }

  /** An existing location passes through existing positions of the arrays above it. */
  lemma ExistingPosition(d: Json, p: Path, r: Path)
    requires p < r && Get(d, r).Some? && Get(d, p).Some? && Get(d, p).value.Arr?
    ensures r[|p|].Num? && r[|p|].n < |Get(d, p).value.items|
  {
    assert r == p + r[|p|..];
    GetSplit(d, p, r[|p|..]);
  }

  lemma ElsewhereUntouched(d: Json, patch: seq<Op>, cs: set<Path>, op: Op, c: Path)
    requires Structural(op) && op in patch && Isolated(patch, cs, c) && Get(d, c).Some? && !(c < op.path)
    ensures !Touches(d, op.path, EditOf(op), c)
  {
    var p := op.path;
    match ShiftSlot(d, p, EditOf(op)) {
      case Some(k) =>
        if AtOrAfter(p, k, c) {
          ExistingPosition(d, p[..|p| - 1], c);
        }
      case None =>
    }
  }

  lemma InnermostIsSource(p: Path, cs: set<Path>, c: Path)
    requires c in cs && c < p && c != [] && forall c' <- cs :: !(c < c')
    ensures Source(p, cs) == Some(c)
  {
    var a := Active(p, cs).value;
    assert c == p[..|c|] && a == p[..|a|];
    assert |c| < |a| ==> c < a;
  }

  lemma StructuralStep(d: Json, patch: seq<Op>, lists: Lists, op: Op)
    requires Structural(op) && op in patch && ApplyOp(d, op).Some?
    requires forall c <- lists :: c != [] ==> Isolated(patch, lists.Keys, c) && Get(d, c) == Some(Arr(lists[c]))
    ensures ShadowStep(lists, op).Success?
    ensures var ls, d' := ShadowStep(lists, op).value, ApplyOp(d, op).value;
            forall c <- ls :: c != [] ==> Get(d', c) == Some(Arr(ls[c]))
  {
    var src := Source(op.path, lists.Keys);
    if src.Some? { SourceStep(d, lists[src.value], op, src.value); }
    var ls, d' := ShadowStep(lists, op).value, ApplyOp(d, op).value;
    forall c | c in ls && c != [] && Some(c) != src
      ensures Get(d', c) == Some(Arr(ls[c]))
    {
      OtherStep(d, patch, lists, op, c);
    }
  }

  lemma SourceStep(d: Json, target: seq<Json>, op: Op, c: Path)
    requires Structural(op) && ApplyOp(d, op).Some? && c < op.path && Get(d, c) == Some(Arr(target))
    ensures var r := FastListOp(target, op, op.path[|c|..]);
            r.Success? && Get(ApplyOp(d, op).value, c) == Some(Arr(r.value))
  {
    var rel := op.path[|c|..];
    assert op.path == c + rel;
    EditBelow(d, c, rel, EditOf(op));
    FastIsGeneral(target, op, rel);
  }

  lemma OtherStep(d: Json, patch: seq<Op>, lists: Lists, op: Op, c: Path)
    requires Structural(op) && op in patch && ApplyOp(d, op).Some? && Get(d, c).Some?
    requires c in lists && c != [] && Isolated(patch, lists.Keys, c) && Source(op.path, lists.Keys) != Some(c)
    ensures Get(ApplyOp(d, op).value, c) == Get(d, c)
  {
    if c < op.path {
      InnermostIsSource(op.path, lists.Keys, c);
      assert false;
    }
    ElsewhereUntouched(d, patch, lists.Keys, op, c);
    UntouchedStays(d, op.path, EditOf(op), c);
  }

  /** The shadow invariant, after any number of operations. The root array is the one exception. */
  lemma {:induction false} ShadowInvariant(before: Json, lists: Lists, patch: seq<Op>, k: nat)
    requires k <= |patch| && CopiesOf(before, lists)
    requires forall c <- lists :: c != [] ==> Isolated(patch, lists.Keys, c)
    requires StructuralReplay(before, patch[..k]).Some?
    ensures ShadowRun(lists, patch[..k]).Success?
    ensures var ls := ShadowRun(lists, patch[..k]).value;
            forall c <- ls :: c != [] ==> Get(StructuralReplay(before, patch[..k]).value, c) == Some(Arr(ls[c]))
  {
    if k > 0 {
      assert patch[..k][..k - 1] == patch[..k - 1];
      ShadowInvariant(before, lists, patch, k - 1);
      var op := patch[k - 1];
      if Structural(op) {
        StructuralStep(StructuralReplay(before, patch[..k - 1]).value, patch,
                       ShadowRun(lists, patch[..k - 1]).value, op);
      }
    }
  }

  /** While no changed array lies inside another and the additions and removals alone are valid, the code raises nothing. */
  lemma NotNestedSucceeds(before: Json, lists: Lists, patch: seq<Op>)
    requires CopiesOf(before, lists) && StructuralReplay(before, patch).Some?
    requires forall c <- lists :: c != [] ==> Isolated(patch, lists.Keys, c)
    ensures ShadowRun(lists, patch).Success?
  {
    assert patch[..|patch|] == patch;
    ShadowInvariant(before, lists, patch, |patch|);
  }
}
