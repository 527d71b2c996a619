/**
 The values reported from given copies are those of the whole patched document, for every element that no operation has
 written unless the copy took it as well.
 */
module JsonReplaced {
  import opened Wrappers
  import opened JsonDocument
  import opened JsonShadow
  import opened JsonChanges

  // ----- the condition ------------------------------------------------------------------------------

  /** The operation is one that the copy of array c takes as well. */
  predicate Tracked(op: Op, cs: set<Path>, src: Option<Path>) {
    src.Some? && Structural(op) && Source(op.path, cs) == src
  }

  /** Applied to d, the operation writes at, above or inside location r, or moves the element there. */
  predicate OpTouches(d: Json, op: Op, r: Path) {
    match op
    case Test(_, _) => false
    case Copy(_, p) => Touches(d, p, Put(Null), r)
    case Move(f, p) =>
      Touches(d, f, Delete, r) ||
      (match ApplyEdit(d, f, Delete) case Some(d') => Touches(d', p, Put(Null), r) case None => false)
    case _ => Touches(d, op.path, EditOf(op), r)
  }

  /**
   No operation before number k wrote at, above or inside the element that is at r when operation k runs, other than
   additions and removals inside it that the copy takes as well. The element is followed back through the shifts
   that the copy tracks.
   */
  predicate Untouched(before: Json, cs: set<Path>, patch: seq<Op>, k: nat, src: Option<Path>, r: Path)
    requires k <= |patch| && Replay(before, patch[..k]).Some?
  {
    if k == 0 then true
    else
      assert patch[..k][..k - 1] == patch[..k - 1];
      var op := patch[k - 1];
      var d := Replay(before, patch[..k - 1]).value;
      if Tracked(op, cs, src) then
        match Back(d, op.path, EditOf(op), r)
        case Some(r') => Untouched(before, cs, patch, k - 1, src, r')
        case None => false
      else !OpTouches(d, op, r) && Untouched(before, cs, patch, k - 1, src, r)
  }

  // ----- an edit below c, seen from c ----------------------------------------------------------------

  lemma SlotBelow(d: Json, c: Path, p: Path, e: Edit, r: Path)
    requires p != [] && Get(d, c).Some?
    ensures ShiftSlot(d, c + p, e) == ShiftSlot(Get(d, c).value, p, e)
    ensures forall k: nat :: AtOrAfter(c + p, k, c + r) <==> AtOrAfter(p, k, r)
    ensures c + p <= c + r <==> p <= r
    ensures c + r <= c + p <==> r <= p
  {
    ShiftBelow(d, c, p, e);
    AfterBelow(c, p, r);
    PrefixBelow(c, p, r);
    PrefixBelow(c, r, p);
  }

  lemma ShiftBelow(d: Json, c: Path, p: Path, e: Edit)
    requires p != [] && Get(d, c).Some?
    ensures ShiftSlot(d, c + p, e) == ShiftSlot(Get(d, c).value, p, e)
  {
    var m, n := |p| - 1, |c + p| - 1;
    assert (c + p)[..n] == c + p[..m];
    GetSplit(d, c, p[..m]);
  }

  lemma AfterBelow(c: Path, p: Path, r: Path)
    requires p != []
    ensures forall k: nat :: AtOrAfter(c + p, k, c + r) <==> AtOrAfter(p, k, r)
  {
    assert (c + p)[..|c + p| - 1] == c + p[..|p| - 1];
    PrefixBelow(c, p[..|p| - 1], r);
  }

  lemma PrefixBelow(c: Path, p: Path, r: Path)
    ensures c + p <= c + r <==> p <= r
  {
    if p <= r {
      assert c + r == (c + p) + r[|p|..];
    }
    if c + p <= c + r {
      assert p == (c + p)[|c|..] == (c + r)[|c|..|c + p|] == r[..|p|];
    }
  }

  lemma BackBelow(d: Json, c: Path, p: Path, e: Edit, r: Path)
    requires p != [] && Get(d, c).Some?
    ensures Back(d, c + p, e, c + r) ==
            (match Back(Get(d, c).value, p, e, r) case Some(r') => Some(c + r') case None => None)
  {
    SlotBelow(d, c, p, e, r);
    var m, n := |p| - 1, |c + p| - 1;
    match ShiftSlot(Get(d, c).value, p, e) {
      case Some(k) =>
        if AtOrAfter(p, k, r) {
          assert (c + r)[n] == r[m];
          var up, down := Num(r[m].n + 1), Num(if r[m].n > 0 then r[m].n - 1 else 0);
          assert (c + r)[n := up] == c + r[m := up];
          assert (c + r)[n := down] == c + r[m := down];
        }
      case None =>
    }
  }

  // ----- one operation -------------------------------------------------------------------------------

  /** The list operation on the copy does to an agreeing element what RFC 6902 does in the document, the single-token
      hot path with its clamped index included. */
  lemma AgreeListOp(x: Json, target: seq<Json>, op: Op, rel: Path, r: Path)
    requires Structural(op) && rel != [] && r != []
    requires ApplyEdit(x, rel, EditOf(op)).Some? && FastListOp(target, op, rel).Success?
    requires Back(x, rel, EditOf(op), r).Some? && Agree(x, Arr(target), Back(x, rel, EditOf(op), r).value)
    requires Get(ApplyEdit(x, rel, EditOf(op)).value, r).Some?
    ensures Agree(ApplyEdit(x, rel, EditOf(op)).value, Arr(FastListOp(target, op, rel).value), r)
  {
    var e := EditOf(op);
    if |rel| == 1 {
      assert rel[..0] == [] && Get(x, rel[..0]) == Some(x) && rel[..0] <= r;
      assert r == [r[0]] + r[1..] && rel == [rel[0]];
      var r0 := Back(x, rel, e, r).value;
      var x', s' := EditHere(x, rel[0], e).value, Arr(FastListOp(target, op, rel).value);
      assert x.Arr?;
      assert r0[1..] == r[1..];
      assert Child(x', r[0]) == Child(x, r0[0]);
      assert Child(s', r[0]) == Child(Arr(target), r0[0]);
    } else {
      AgreeBoth(x, Arr(target), rel, e, r);
    }
  }

  /** An untracked edit that does not touch an element below c keeps it in agreement with the copy of c. */
  lemma AgreeEditElsewhere(d: Json, p: Path, e: Edit, c: Path, s: Json, r: Path)
    requires ApplyEdit(d, p, e).Some? && !Touches(d, p, e, c + r)
    requires Get(d, c).Some? && Agree(Get(d, c).value, s, r)
    ensures var d' := ApplyEdit(d, p, e).value;
            Get(d', c).Some? && Agree(Get(d', c).value, s, r)
  {
    assert c <= c + r;
    if c <= p {
      var q := p[|c|..];
      assert p == c + q;
      assert q != [];
      EditBelow(d, c, q, e);
      SlotBelow(d, c, q, e, r);
      AgreeUntouched(Get(d, c).value, s, q, e, r);
    } else {
      assert !Touches(d, p, e, c) by {
        match ShiftSlot(d, p, e) {
          case Some(k) =>
            if AtOrAfter(p, k, c) {
              var m := |p| - 1;
              assert (c + r)[m] == c[m];
              assert AtOrAfter(p, k, c + r);
            }
          case None =>
        }
      }
      UntouchedStays(d, p, e, c);
    }
  }

  /** The operation can be made and does not touch the element at r below c, which agrees with the copy s of c. */
  predicate AgreesElsewhere(d: Json, op: Op, c: Path, s: Json, r: Path) {
    ApplyOp(d, op).Some? && !OpTouches(d, op, c + r) && AgreesBelow(d, c, s, r)
  }

  predicate AgreesBelow(d: Json, c: Path, s: Json, r: Path) {
    Get(d, c).Some? && Agree(Get(d, c).value, s, r)
  }

  lemma AgreeOwnEdit(d: Json, op: Op, c: Path, s: Json, r: Path)
    requires AgreesElsewhere(d, op, c, s, r) && (op.Add? || op.Remove? || op.Replace?)
    ensures AgreesBelow(ApplyOp(d, op).value, c, s, r)
  {
    AgreeEditElsewhere(d, op.path, EditOf(op), c, s, r);
  }

  lemma AgreeCopy(d: Json, op: Op, c: Path, s: Json, r: Path)
    requires AgreesElsewhere(d, op, c, s, r) && op.Copy?
    ensures AgreesBelow(ApplyOp(d, op).value, c, s, r)
  {
    AgreeEditElsewhere(d, op.path, Put(Get(d, op.from).value), c, s, r);
  }

  lemma AgreeMove(d: Json, op: Op, c: Path, s: Json, r: Path)
    requires AgreesElsewhere(d, op, c, s, r) && op.Move?
    ensures AgreesBelow(ApplyOp(d, op).value, c, s, r)
  {
    AgreeEditElsewhere(d, op.from, Delete, c, s, r);
    AgreeEditElsewhere(ApplyEdit(d, op.from, Delete).value, op.path, Put(Get(d, op.from).value), c, s, r);
  }

  lemma AgreeOpElsewhere(d: Json, op: Op, c: Path, s: Json, r: Path)
    requires AgreesElsewhere(d, op, c, s, r)
    ensures AgreesBelow(ApplyOp(d, op).value, c, s, r)
  {
    if op.Copy? {
      AgreeCopy(d, op, c, s, r);
    } else if op.Move? {
      AgreeMove(d, op, c, s, r);
    } else if !op.Test? {
      AgreeOwnEdit(d, op, c, s, r);
    }
  }

  lemma OpElsewhereStays(d: Json, op: Op, r: Path)
    requires ApplyOp(d, op).Some? && !OpTouches(d, op, r)
    ensures Get(ApplyOp(d, op).value, r) == Get(d, r)
  {
    match op
    case Test(_, _) =>
    case Copy(f, p) => UntouchedStays(d, p, Put(Get(d, f).value), r);
    case Move(f, p) =>
      UntouchedStays(d, f, Delete, r);
      UntouchedStays(ApplyEdit(d, f, Delete).value, p, Put(Get(d, f).value), r);
    case _ => UntouchedStays(d, op.path, EditOf(op), r);
  }

  // ----- whole prefixes ------------------------------------------------------------------------------

  /** One tracked operation, taken by the document and by the copy of c. */
  lemma AgreeTracked(d: Json, d': Json, target: seq<Json>, op: Op, c: Path, rel: Path, r: Path, b: Path)
    requires Structural(op) && op.path == c + rel && rel != [] && r != []
    requires ApplyOp(d, op) == Some(d') && Get(d', c + r).Some?
    requires FastListOp(target, op, rel).Success? && Get(d, c).Some?
    requires Back(Get(d, c).value, rel, EditOf(op), r) == Some(b) && Agree(Get(d, c).value, Arr(target), b)
    ensures Get(d', c).Some? && Agree(Get(d', c).value, Arr(FastListOp(target, op, rel).value), r)
  {
    EditBelow(d, c, rel, EditOf(op));
    GetSplit(d', c, r);
    AgreeListOp(Get(d, c).value, target, op, rel, r);
  }

  lemma OneStep(before: Json, lists: Lists, patch: seq<Op>, k: nat)
    requires 0 < k <= |patch| && Replay(before, patch[..k]).Some? && ShadowRun(lists, patch[..k]).Success?
    ensures Replay(before, patch[..k - 1]).Some? && ShadowRun(lists, patch[..k - 1]).Success?
    ensures Replay(before, patch[..k]) == ApplyOp(Replay(before, patch[..k - 1]).value, patch[k - 1])
    ensures ShadowRun(lists, patch[..k]) == ShadowStep(ShadowRun(lists, patch[..k - 1]).value, patch[k - 1])
  {
    assert patch[..k][..k - 1] == patch[..k - 1];
  }

  /** The copy of c agrees with the document on every untouched element below c. */
  lemma {:induction false} CopyAgrees(before: Json, lists: Lists, patch: seq<Op>, k: nat, c: Path, r: Path)
    requires k <= |patch| && Replay(before, patch[..k]).Some? && ShadowRun(lists, patch[..k]).Success?
    requires c in lists && r != [] && Get(before, c) == Some(Arr(lists[c]))
    requires Get(Replay(before, patch[..k]).value, c + r).Some?
    requires Untouched(before, lists.Keys, patch, k, Some(c), c + r)
    ensures var d := Replay(before, patch[..k]).value;
            Get(d, c).Some? && Agree(Get(d, c).value, Arr(ShadowRun(lists, patch[..k]).value[c]), r)
  {
    if k == 0 {
      GetSplit(before, c, r);
      AgreeSelf(Arr(lists[c]), r);
    } else {
      OneStep(before, lists, patch, k);
      var b := OriginBefore(before, lists, patch, k, c, r);
      CopyAgrees(before, lists, patch, k - 1, c, b);
      AgreeStep(Replay(before, patch[..k - 1]).value, ShadowRun(lists, patch[..k - 1]).value, patch[k - 1], c, r, b);
    }
  }

  /** One operation keeps the agreement of the copy with the document, for the element that it leaves at r. */
  lemma AgreeStep(d: Json, ls: Lists, op: Op, c: Path, r: Path, b: Path)
    requires c in ls && r != [] && b != [] && ApplyOp(d, op).Some? && Get(ApplyOp(d, op).value, c + r).Some?
    requires ShadowStep(ls, op).Success? && Get(d, c).Some? && Agree(Get(d, c).value, Arr(ls[c]), b)
    requires if Tracked(op, ls.Keys, Some(c)) then Back(Get(d, c).value, op.path[|c|..], EditOf(op), r) == Some(b)
             else b == r && !OpTouches(d, op, c + r)
    ensures c in ShadowStep(ls, op).value
    ensures var d' := ApplyOp(d, op).value;
            Get(d', c).Some? && Agree(Get(d', c).value, Arr(ShadowStep(ls, op).value[c]), r)
  {
    if Tracked(op, ls.Keys, Some(c)) {
      AgreeTracked(d, ApplyOp(d, op).value, ls[c], op, c, op.path[|c|..], r, b);
    } else {
      AgreeOpElsewhere(d, op, c, Arr(ls[c]), r);
    }
  }

  /** Where an untouched element stood before the last operation of a prefix. */
  lemma OriginBefore(before: Json, lists: Lists, patch: seq<Op>, k: nat, c: Path, r: Path) returns (b: Path)
    requires 0 < k <= |patch| && Replay(before, patch[..k]).Some? && Replay(before, patch[..k - 1]).Some?
    requires Replay(before, patch[..k]) == ApplyOp(Replay(before, patch[..k - 1]).value, patch[k - 1])
    requires r != [] && Get(Replay(before, patch[..k]).value, c + r).Some?
    requires Untouched(before, lists.Keys, patch, k, Some(c), c + r)
    ensures var d, op := Replay(before, patch[..k - 1]).value, patch[k - 1];
      && b != [] && Get(d, c + b).Some? && Untouched(before, lists.Keys, patch, k - 1, Some(c), c + b)
      && (if Tracked(op, lists.Keys, Some(c))
          then Get(d, c).Some? && Back(Get(d, c).value, op.path[|c|..], EditOf(op), r) == Some(b)
          else b == r && !OpTouches(d, op, c + r))
  {
    var op, d', d := patch[k - 1], Replay(before, patch[..k]).value, Replay(before, patch[..k - 1]).value;
    if Tracked(op, lists.Keys, Some(c)) {
      b := TrackedOrigin(d, d', op, c, op.path[|c|..], r);
    } else {
      OpElsewhereStays(d, op, c + r);
      b := r;
    }
  }

  /** Where a tracked operation moved an element from, relative to the tracked array. */
  lemma TrackedOrigin(d: Json, d': Json, op: Op, c: Path, rel: Path, r: Path) returns (b: Path)
    requires Structural(op) && op.path == c + rel && rel != [] && r != []
    requires ApplyOp(d, op) == Some(d') && Get(d', c + r).Some?
    requires Back(d, op.path, EditOf(op), c + r).Some?
    ensures b != [] && Back(d, op.path, EditOf(op), c + r) == Some(c + b) && Get(d, c + b).Some? && Get(d, c).Some?
    ensures Back(Get(d, c).value, rel, EditOf(op), r) == Some(b)
  {
    EditBelow(d, c, rel, EditOf(op));
    BackExists(d, op.path, EditOf(op), c + r);
    BackBelow(d, c, rel, EditOf(op), r);
    b := Back(Get(d, c).value, rel, EditOf(op), r).value;
  }

  /** Without a copy, the original document still holds what is at an untouched location. */
  lemma {:induction false} OriginalStands(before: Json, cs: set<Path>, patch: seq<Op>, k: nat, r: Path)
    requires k <= |patch| && Replay(before, patch[..k]).Some?
    requires Untouched(before, cs, patch, k, None, r)
    ensures Get(Replay(before, patch[..k]).value, r) == Get(before, r)
  {
    if k > 0 {
      assert patch[..k][..k - 1] == patch[..k - 1];
      OpElsewhereStays(Replay(before, patch[..k - 1]).value, patch[k - 1], r);
      OriginalStands(before, cs, patch, k - 1, r);
    }
  }

  /**
   With any copies of arrays of the document: the value reported for a replace of an element untouched by what the copies do
   not take is the value there of d, the whole document once all earlier operations have been applied to it.
   */
  lemma TrackedIsOverwritten(before: Json, lists: Lists, patch: seq<Op>, k: nat, d: Json)
    requires CopiesOf(before, lists) && ShadowRun(lists, patch).Success?
    requires k < |patch| && patch[k].Replace?
    requires Replay(before, patch[..k]) == Some(d) && ApplyOp(d, patch[k]).Some?
    requires Untouched(before, lists.Keys, patch, k, Source(patch[k].path, lists.Keys), patch[k].path)
    ensures Get(d, patch[k].path) == Some(AllChanges(before, lists, patch)[k].replaced)
  {
    var p := patch[k].path;
    ChangeOf(before, lists, patch, k);
    OverwriteExists(d, p, patch[k].value);
    match Source(p, lists.Keys) {
      case Some(c) => CopyHolds(before, lists, patch, k, c, p);
      case None => OriginalStands(before, lists.Keys, patch, k, p);
    }
  }

  lemma CopyHolds(before: Json, lists: Lists, patch: seq<Op>, k: nat, c: Path, p: Path)
    requires k <= |patch| && Replay(before, patch[..k]).Some? && ShadowRun(lists, patch[..k]).Success?
    requires c in lists && c < p && Get(before, c) == Some(Arr(lists[c]))
    requires Get(Replay(before, patch[..k]).value, p).Some?
    requires Untouched(before, lists.Keys, patch, k, Some(c), p)
    ensures Get(Arr(ShadowRun(lists, patch[..k]).value[c]), p[|c|..]) == Get(Replay(before, patch[..k]).value, p)
  {
    var r, d := p[|c|..], Replay(before, patch[..k]).value;
    assert p == c + r;
    CopyAgrees(before, lists, patch, k, c, r);
    AgreeGet(Get(d, c).value, Arr(ShadowRun(lists, patch[..k]).value[c]), r);
    GetSplit(d, c, r);
  }

  lemma {:induction false} OverwriteExists(d: Json, p: Path, v: Json)
    requires ApplyEdit(d, p, Overwrite(v)).Some?
    ensures Get(d, p).Some?
    decreases p
  {
    if |p| > 1 {
      OverwriteExists(Child(d, p[0]).value, p[1..], v);
    }
  }

  /** Entry k of the result, looked up when the first k operations have run. */
  lemma {:induction false} ChangeOf(before: Json, lists: Lists, patch: seq<Op>, k: nat)
    requires k < |patch| && ShadowRun(lists, patch).Success?
    ensures ShadowRun(lists, patch[..k]).Success?
    ensures AllChanges(before, lists, patch)[k]
            == ChangeAt(before, ShadowRun(lists, patch[..k]).value, patch[k])
  {
    var n := |patch| - 1;
    if k < n {
      ChangeOf(before, lists, patch[..n], k);
      assert patch[..n][..k] == patch[..k];
    }
  }
}
