/** Where the reported value is not the overwritten one, although the patch is valid for the document. */
module JsonLimits {
  import opened Sequences
  import opened Wrappers
  import opened JsonDocument
  import opened JsonChanges
  import opened JsonReplaced
  import Decimal

  /** What the code reports for operation k; None when it raises instead. */
  function Reported(before: Json, lists: Lists, patch: seq<Op>, k: nat): Option<Json>
    requires k < |patch|
  {
    match ShadowRun(lists, patch)
    case Success(_) => Some(AllChanges(before, lists, patch)[k].replaced)
    case Failure(_) => None
  }

  /** The value that operation k overwrites in the whole document. */
  function Overwritten(before: Json, patch: seq<Op>, k: nat): Option<Json>
    requires k < |patch|
  {
    match Replay(before, patch[..k])
    case Some(d) => Get(d, patch[k].path)
    case None => None
  }

  lemma TwoOps(before: Json, lists: Lists, a: Op, b: Op)
    ensures Replay(before, [a, b][..1]) == ApplyOp(before, a)
    ensures ShadowStep(lists, a).Success? ==>
              ShadowRun(lists, [a, b]) == ShadowStep(ShadowStep(lists, a).value, b)
    ensures ShadowStep(lists, a).Success? && ShadowRun(lists, [a, b]).Success? ==>
              AllChanges(before, lists, [a, b])[1] == ChangeAt(before, ShadowStep(lists, a).value, b)
  {
    assert [a, b][..1] == [a] && [a][..0] == [];
    assert ShadowRun(lists, [a]) == ShadowStep(lists, a);
  }

  /** Between operations i and k, both left out, nothing writes at, above or inside p or shifts an array above it. */
  predicate UntouchedSince(before: Json, patch: seq<Op>, i: nat, k: nat, p: Path)
    requires i < k <= |patch| && Replay(before, patch[..k]).Some?
  {
    if k == i + 1 then true
    else
      assert patch[..k][..k - 1] == patch[..k - 1];
      !OpTouches(Replay(before, patch[..k - 1]).value, patch[k - 1], p) && UntouchedSince(before, patch, i, k - 1, p)
  }

  lemma {:induction false} StaysReplaced(before: Json, patch: seq<Op>, i: nat, k: nat, p: Path, v: Json)
    requires i < k <= |patch| && Replay(before, patch[..k]).Some? && patch[i] == Replace(p, v)
    requires UntouchedSince(before, patch, i, k, p)
    ensures Get(Replay(before, patch[..k]).value, p) == Some(v)
    decreases k
  {
    assert patch[..k][..k - 1] == patch[..k - 1];
    var d := Replay(before, patch[..k - 1]).value;
    if k == i + 1 {
      OverwriteExists(d, p, v);
      OverwriteGets(d, p, v);
    } else {
      OpElsewhereStays(d, patch[k - 1], p);
      StaysReplaced(before, patch, i, k - 1, p, v);
    }
  }

  /**
   Nothing is ever replaced in a copy or in the original: a second replace of an element with no container above it reports
   what the first one reported. So the report is right exactly when the first one replaced what the original document
   has there, or null where it has nothing, by itself.
   */
  lemma SecondReplace(before: Json, lists: Lists, patch: seq<Op>, i: nat, k: nat, p: Path, v: Json, w: Json)
    requires PossibleShadows(before, patch, lists) && forall c :: StructuralContainer(patch, c) ==> !(c < p)
    requires ShadowRun(lists, patch).Success?
    requires i < k < |patch| && patch[i] == Replace(p, v) && patch[k] == Replace(p, w)
    requires Replay(before, patch[..k]).Some? && UntouchedSince(before, patch, i, k, p)
    ensures Overwritten(before, patch, k) == Some(v)
    ensures Reported(before, lists, patch, k) == Reported(before, lists, patch, i)
    ensures Reported(before, lists, patch, k) == Overwritten(before, patch, k)
            <==> v == match Get(before, p) case Some(u) => u case None => Null
  {
    StaysReplaced(before, patch, i, k, p, v);
    ChangeOf(before, lists, patch, i);
    ChangeOf(before, lists, patch, k);
    NoSource(before, lists, patch, p);
  }

  lemma NoneAbove(cs: set<Path>, p: Path)
    requires forall c <- cs :: !(c < p)
    ensures Source(p, cs).None?
  {
  }

  lemma NoSource(before: Json, lists: Lists, patch: seq<Op>, p: Path)
    requires PossibleShadows(before, patch, lists) && forall c :: StructuralContainer(patch, c) ==> !(c < p)
    ensures Source(p, lists.Keys).None?
  {
    ListsAreContainers(before, patch, lists);
    NoneAbove(lists.Keys, p);
  }

  lemma {:induction false} OverwriteGets(d: Json, p: Path, v: Json)
    requires Get(d, p).Some?
    ensures ApplyEdit(d, p, Overwrite(v)).Some? && Get(ApplyEdit(d, p, Overwrite(v)).value, p) == Some(v)
    decreases p
  {
    if |p| == 1 {
      assert Get(EditHere(d, p[0], Overwrite(v)).value, p) == Some(v);
    } else if p != [] {
      OverwriteGets(Child(d, p[0]).value, p[1..], v);
    }
  }

  // ----- three operations ----------------------------------------------------------------------------

  lemma ThreeOps(before: Json, lists: Lists, ops: seq<Op>)
    requires |ops| == 3
    ensures ops[..2] == [ops[0], ops[1]]
    ensures ShadowRun(lists, ops[..2]).Success? ==> ShadowRun(lists, ops) == ShadowStep(ShadowRun(lists, ops[..2]).value, ops[2])
    ensures ShadowRun(lists, ops).Success? ==>
              ShadowRun(lists, ops[..2]).Success? &&
              AllChanges(before, lists, ops)[2] == ChangeAt(before, ShadowRun(lists, ops[..2]).value, ops[2])
    ensures Replay(before, ops[..2]) == (match ApplyOp(before, ops[0])
                                         case Some(d) => ApplyOp(d, ops[1]) case None => None)
  {
    assert ops[..2] == [ops[0], ops[1]];
    TwoOps(before, lists, ops[0], ops[1]);
  }

  const X: Token := Name("x")
  const K: Token := Name("k")

  lemma KIsPlain()
    ensures !EndsInDigits(K) && K != DASH
  {
    assert "k"[0] == 'k' && "-"[0] == '-' && !Decimal.IsDigit("k"[0]);
  }

  function UnderX(v: Json): Json { Obj(map[X := v]) }

  /** Element i of the array x replaced by an object, a member added to that object, the element removed. */
  function RebuildPatch(i: nat, f: map<Token, Json>, u: Json): seq<Op> {
    [Replace([X, Num(i)], Obj(f)), Add([X, Num(i), K], u), Remove([X, Num(i)])]
  }

  lemma RebuildLists(xs: seq<Json>, i: nat, f: map<Token, Json>, u: Json, lists: Lists)
    requires PossibleShadows(UnderX(Arr(xs)), RebuildPatch(i, f, u), lists)
    ensures lists == map[[X] := xs]
  {
    var patch, before := RebuildPatch(i, f, u), UnderX(Arr(xs));
    var tracked := TrackingOf(before, patch, lists);
    RebuildContainers(i, f, u);
    assert patch[0] in patch && patch[0].path == [X] + [Num(i)];
    OnlyTracked(patch, tracked, [X], patch[0]);
    GetX(Arr(xs));
    ShadowOfOne(before, [X], xs);
  }

  lemma GetX(v: Json)
    ensures Get(UnderX(v), [X]) == Some(v)
  {
    assert [X][1..] == [];
  }

  lemma RebuildContainers(i: nat, f: map<Token, Json>, u: Json)
    ensures forall c :: StructuralContainer(RebuildPatch(i, f, u), c) <==> c == [X]
  {
    var patch := RebuildPatch(i, f, u);
    KIsPlain();
    assert [X, Num(i)][..1] == [X] && [X, Num(i), K][2] == K;
    assert ArrayOf(patch[2].path) == Some([X]) && ArrayOf(patch[1].path) == None;
    assert patch[2] in patch;
  }

  lemma UnderXEdit(a: Json, rel: Path, e: Edit)
    requires rel != []
    ensures ApplyEdit(UnderX(a), [X] + rel, e)
            == (match ApplyEdit(a, rel, e) case Some(a') => Some(UnderX(a')) case None => None)
  {
    assert ([X] + rel)[1..] == rel;
    match ApplyEdit(a, rel, e) {
      case Some(a') => assert map[X := a][X := a'] == map[X := a'];
      case None =>
    }
  }

  lemma RebuildReplay(xs: seq<Json>, i: nat, f: map<Token, Json>, u: Json)
    requires i < |xs|
    ensures Replay(UnderX(Arr(xs)), RebuildPatch(i, f, u)) == Some(UnderX(Arr(RemoveAt(xs, i))))
  {
    var ops := RebuildPatch(i, f, u);
    var xs1, xs2 := xs[i := Obj(f)], xs[i := Obj(f[K := u])];
    assert ops[0].path == [X] + [Num(i)] == ops[2].path && ops[1].path == [X] + [Num(i), K];
    UnderXEdit(Arr(xs), [Num(i)], Overwrite(Obj(f)));
    UnderXEdit(Arr(xs1), [Num(i), K], Put(u));
    UnderXEdit(Arr(xs2), [Num(i)], Delete);
    assert ApplyEdit(Arr(xs1), [Num(i), K], Put(u)) == Some(Arr(xs2)) by {
      assert [Num(i), K][1..] == [K];
      assert xs1[i := Obj(f[K := u])] == xs2;
    }
    assert RemoveAt(xs2, i) == RemoveAt(xs, i);
    assert ops[..2] == [ops[0], ops[1]] && ops[..2][..1] == [ops[0]] && [ops[0]][..0] == [];
    assert Replay(UnderX(Arr(xs)), [ops[0]]) == Some(UnderX(Arr(xs1)));
    assert Replay(UnderX(Arr(xs)), ops[..2]) == Some(UnderX(Arr(xs2)));
  }

  /**
   The copies never take a replace, so an operation inside the replacement may find nothing there: the patch is valid
   for every array, but the code raises exactly when the element it replaced was not itself an object.
   */
  lemma RaisesInsideReplacement(xs: seq<Json>, i: nat, f: map<Token, Json>, u: Json, lists: Lists)
    requires i < |xs|
    requires PossibleShadows(UnderX(Arr(xs)), RebuildPatch(i, f, u), lists)
    ensures Replay(UnderX(Arr(xs)), RebuildPatch(i, f, u)).Some?
    ensures ShadowRun(lists, RebuildPatch(i, f, u)).Failure? <==> !xs[i].Obj?
  {
    RebuildReplay(xs, i, f, u);
    RebuildLists(xs, i, f, u, lists);
    RebuildFails(xs, i, f, u);
  }

  lemma RebuildFails(xs: seq<Json>, i: nat, f: map<Token, Json>, u: Json)
    requires i < |xs|
    ensures ShadowRun(map[[X] := xs], RebuildPatch(i, f, u)).Failure? <==> !xs[i].Obj?
  {
    var ops := RebuildPatch(i, f, u);
    RebuildRun(map[[X] := xs], ops);
    StepAtX(xs, ops[1], [Num(i), K]);
    InsideElement(xs, i, u);
    match FastListOp(xs, ops[1], [Num(i), K]) {
      case Success(items) => StepAtX(items, ops[2], [Num(i)]);
      case Failure(_) =>
    }
  }

  lemma RebuildRun(lists: Lists, ops: seq<Op>)
    requires |ops| == 3 && ops[0].Replace?
    ensures ShadowStep(lists, ops[1]).Failure? ==> ShadowRun(lists, ops).Failure?
    ensures ShadowStep(lists, ops[1]).Success? ==>
              ShadowRun(lists, ops) == ShadowStep(ShadowStep(lists, ops[1]).value, ops[2])
  {
    ThreeOps(Null, lists, ops);
    TwoOps(Null, lists, ops[0], ops[1]);
    if ShadowStep(lists, ops[1]).Failure? { RunFails(lists, ops, 2); }
  }

  lemma StepAtX(xs: seq<Json>, op: Op, rel: Path)
    requires Structural(op) && rel != [] && op.path == [X] + rel
    ensures FastListOp(xs, op, rel).Failure? ==>
              ShadowStep(map[[X] := xs], op) == Failure(FastListOp(xs, op, rel).error)
    ensures FastListOp(xs, op, rel).Success? ==>
              ShadowStep(map[[X] := xs], op) == Success(map[[X] := FastListOp(xs, op, rel).value])
  {
    var lists: Lists := map[[X] := xs];
    assert lists.Keys == {[X]} && [X] < op.path;
    assert Source(op.path, lists.Keys) == Some([X]);
    assert op.path[1..] == rel;
    match FastListOp(xs, op, rel) {
      case Success(items) => assert lists[[X] := items] == map[[X] := items];
      case Failure(_) =>
    }
  }

  lemma InsideElement(xs: seq<Json>, i: nat, u: Json)
    requires i < |xs|
    ensures var r := FastListOp(xs, Add([X, Num(i), K], u), [Num(i), K]);
            (r.Success? <==> xs[i].Obj?) && (r.Success? ==> |r.value| == |xs|)
  {
    KIsPlain();
    var rel := [Num(i), K];
    assert rel[1..] == [K] && Child(Arr(xs), rel[0]) == Some(xs[i]);
    assert ApplyEdit(xs[i], rel[1..], Put(u)) == EditHere(xs[i], K, Put(u));
  }

  // ----- nested arrays ---------------------------------------------------------------------------------

  /** An element inserted before the only element of x, then one at the head of that element's own array k. */
  function NestedBefore(a: Json): Json { UnderX(Arr([Obj(map[K := Arr([a])])])) }

  function NestedPatch(z: Json, w: Json): seq<Op> {
    [Add([X, Num(0)], Null), Add([X, Num(1), K, Num(0)], z), Replace([X, Num(1), K, Num(1)], w)]
  }

  lemma NestedReplay(a: Json, z: Json, w: Json)
    ensures Overwritten(NestedBefore(a), NestedPatch(z, w), 2) == Some(a)
  {
    var ops, e0 := NestedPatch(z, w), Obj(map[K := Arr([a])]);
    var e1 := Obj(map[K := Arr([z, a])]);
    ThreeOps(NestedBefore(a), map[], ops);
    UnderXEdit(Arr([e0]), [Num(0)], Put(Null));
    assert ops[0].path == [X] + [Num(0)] && ops[1].path == [X] + [Num(1), K, Num(0)];
    assert Insert([e0], 0, Null) == [Null, e0];
    UnderXEdit(Arr([Null, e0]), [Num(1), K, Num(0)], Put(z));
    NestedEdit(a, z);
    GetNested(UnderX(Arr([Null, e1])), e1, a);
  }

  lemma NestedEdit(a: Json, z: Json)
    ensures ApplyEdit(Arr([Null, Obj(map[K := Arr([a])])]), [Num(1), K, Num(0)], Put(z))
            == Some(Arr([Null, Obj(map[K := Arr([z, a])])]))
  {
    var e0, e1 := Obj(map[K := Arr([a])]), Obj(map[K := Arr([z, a])]);
    assert Insert([a], 0, z) == [z, a];
    assert [K, Num(0)][1..] == [Num(0)];
    assert map[K := Arr([a])][K := Arr([z, a])] == map[K := Arr([z, a])];
    assert ApplyEdit(e0, [K, Num(0)], Put(z)) == Some(e1);
    assert [Num(1), K, Num(0)][1..] == [K, Num(0)];
    assert [Null, e0][1 := e1] == [Null, e1];
  }

  lemma GetNested(d: Json, e: Json, a: Json)
    requires e.Obj? && K in e.fields && e.fields[K].Arr? && |e.fields[K].items| == 2 && e.fields[K].items[1] == a
    requires d == UnderX(Arr([Null, e]))
    ensures Get(d, [X, Num(1), K, Num(1)]) == Some(a)
    ensures Get(Arr([Null, e]), [Num(1), K, Num(1)]) == Some(a)
  {
    assert [X, Num(1), K, Num(1)][1..] == [Num(1), K, Num(1)];
    assert [Num(1), K, Num(1)][1..] == [K, Num(1)] && [K, Num(1)][1..] == [Num(1)];
    assert Get(e.fields[K], [Num(1)]) == Some(a);
    assert Get(e, [K, Num(1)]) == Some(a);
    assert Child(d, X) == Some(Arr([Null, e]));
  }

  const INNER: Path := [X, Num(1), K]

  /** The two containers of a patch whose third operation is its only replace, below both: the one that comes first is
      tracked. */
  lemma TwoOrders(ops: seq<Op>, a: Path, b: Path)
    requires |ops| == 3 && Structural(ops[0]) && Structural(ops[1]) && ops[2].Replace?
    requires ArrayOf(ops[0].path) == Some(a) && ArrayOf(ops[1].path) == Some(b) && a != b
    requires a < ops[2].path && b < ops[2].path
    ensures OrderOf(ops, [a, b]) && TrackedBy(ops, [a, b]) == {a}
    ensures OrderOf(ops, [b, a]) && TrackedBy(ops, [b, a]) == {b}
  {
    assert ops[0] in ops && ops[1] in ops && ops[2] in ops;
    assert forall op <- ops :: op == ops[0] || op == ops[1] || op == ops[2];
    assert FirstIn([a, b], ops[2].path) == Some(a) && FirstIn([b, a], ops[2].path) == Some(b);
  }

  lemma NestedTracking(z: Json, w: Json)
    ensures OrderOf(NestedPatch(z, w), [[X], INNER]) && TrackedBy(NestedPatch(z, w), [[X], INNER]) == {[X]}
    ensures OrderOf(NestedPatch(z, w), [INNER, [X]]) && TrackedBy(NestedPatch(z, w), [INNER, [X]]) == {INNER}
  {
    var ops := NestedPatch(z, w);
    KIsPlain();
    assert ops[0].path[..1] == [X] && ops[1].path[..3] == INNER;
    assert !HasNewline(X) && !HasNewline(K);
    TwoOrders(ops, [X], INNER);
  }

  lemma NestedShadows(a: Json, z: Json, w: Json)
    ensures PossibleShadows(NestedBefore(a), NestedPatch(z, w), map[[X] := [Obj(map[K := Arr([a])])]])
    ensures PossibleShadows(NestedBefore(a), NestedPatch(z, w), map[])
  {
    NestedTracking(z, w);
    NestedArrays(a);
    Possible(NestedBefore(a), NestedPatch(z, w), [[X], INNER], {[X]});
    Possible(NestedBefore(a), NestedPatch(z, w), [INNER, [X]], {INNER});
  }

  lemma NestedArrays(a: Json)
    ensures ShadowArrays(NestedBefore(a), {[X]}) == map[[X] := [Obj(map[K := Arr([a])])]]
    ensures ShadowArrays(NestedBefore(a), {INNER}) == map[]
  {
    assert [X][1..] == [];
    assert INNER[1..] == [Num(1), K];
    assert Get(NestedBefore(a), [X]) == Some(Arr([Obj(map[K := Arr([a])])]));
    assert Get(NestedBefore(a), INNER).None?;
  }

  /**
   When one changed array lies inside another, the report depends on the order in which the containers are met: with
   the outer array tracked it is the overwritten value, with the inner one tracked it is not, unless that value was
   null.
   */
  lemma NestedArraysDependOnOrder(a: Json, z: Json, w: Json)
    ensures var before, patch := NestedBefore(a), NestedPatch(z, w);
            var outer: Lists := map[[X] := [Obj(map[K := Arr([a])])]];
            && PossibleShadows(before, patch, outer) && PossibleShadows(before, patch, map[])
            && Reported(before, outer, patch, 2) == Overwritten(before, patch, 2)
            && (Reported(before, map[], patch, 2) == Overwritten(before, patch, 2) <==> a == Null)
  {
    NestedShadows(a, z, w);
    NestedReplay(a, z, w);
    NestedOuterRun(a, z, w);
    NestedInnerRun(a, z, w);
  }

  lemma NestedOuterShadow(a: Json, z: Json, w: Json)
    ensures ShadowRun(map[[X] := [Obj(map[K := Arr([a])])]], NestedPatch(z, w)[..2])
            == Success(map[[X] := [Null, Obj(map[K := Arr([z, a])])]])
  {
    var ops, e0 := NestedPatch(z, w), Obj(map[K := Arr([a])]);
    assert ops[..2] == [ops[0], ops[1]];
    TwoOps(Null, map[[X] := [e0]], ops[0], ops[1]);
    StepAtX([e0], ops[0], [Num(0)]);
    assert Insert([e0], 0, Null) == [Null, e0];
    StepAtX([Null, e0], ops[1], [Num(1), K, Num(0)]);
    NestedEdit(a, z);
  }

  lemma LastReported(before: Json, lists: Lists, ops: seq<Op>, ls: Lists)
    requires |ops| == 3 && ops[2].Replace? && ShadowRun(lists, ops[..2]) == Success(ls)
    ensures Reported(before, lists, ops, 2) == Some(Lookup(before, ls, ops[2].path))
  {
    ThreeOps(before, lists, ops);
  }

  lemma NestedOuterRun(a: Json, z: Json, w: Json)
    ensures Reported(NestedBefore(a), map[[X] := [Obj(map[K := Arr([a])])]], NestedPatch(z, w), 2) == Some(a)
  {
    NestedOuterShadow(a, z, w);
    LastReported(NestedBefore(a), map[[X] := [Obj(map[K := Arr([a])])]], NestedPatch(z, w),
                 map[[X] := [Null, Obj(map[K := Arr([z, a])])]]);
    NestedOuterLookup(a, z);
  }

  lemma NestedOuterLookup(a: Json, z: Json)
    ensures Lookup(NestedBefore(a), map[[X] := [Null, Obj(map[K := Arr([z, a])])]], [X, Num(1), K, Num(1)]) == a
  {
    var e1 := Obj(map[K := Arr([z, a])]);
    GetNested(UnderX(Arr([Null, e1])), e1, a);
    LookupAtX(NestedBefore(a), [Null, e1], [Num(1), K, Num(1)]);
    assert [X] + [Num(1), K, Num(1)] == [X, Num(1), K, Num(1)];
  }

  lemma LookupAtX(before: Json, xs: seq<Json>, rel: Path)
    requires rel != []
    ensures Lookup(before, map[[X] := xs], [X] + rel) == (match Get(Arr(xs), rel) case Some(v) => v case None => Null)
  {
    var ls: Lists := map[[X] := xs];
    assert ls.Keys == {[X]} && [X] < [X] + rel;
    assert Source([X] + rel, ls.Keys) == Some([X]);
    assert ([X] + rel)[1..] == rel;
  }

  lemma NestedInnerRun(a: Json, z: Json, w: Json)
    ensures Reported(NestedBefore(a), map[], NestedPatch(z, w), 2) == Some(Null)
  {
    NothingTaken(map[], NestedPatch(z, w)[..2]);
    LastReported(NestedBefore(a), map[], NestedPatch(z, w), map[]);
    NothingThere(a);
  }

  lemma NothingThere(a: Json)
    ensures Get(NestedBefore(a), [X, Num(1), K, Num(1)]).None?
  {
    assert [X, Num(1), K, Num(1)][1..] == [Num(1), K, Num(1)];
    assert Child(NestedBefore(a), X) == Some(Arr([Obj(map[K := Arr([a])])]));
    assert Child(Arr([Obj(map[K := Arr([a])])]), Num(1)).None?;
  }

  // ----- a container that is no array ------------------------------------------------------------------------------------

  /** A member named 5 is added to the root object, then an element is added before those of x and the last one replaced.
      No array lies inside another, but the text of the first path makes the root a container. */
  function NumberedPatch(v: Json, z: Json, w: Json): seq<Op> {
    [Add([Num(5)], v), Add([X, Num(0)], z), Replace([X, Num(2)], w)]
  }

  lemma NumberedTracking(a: Json, b: Json, v: Json, z: Json, w: Json)
    ensures PossibleShadows(UnderX(Arr([a, b])), NumberedPatch(v, z, w), map[])
    ensures PossibleShadows(UnderX(Arr([a, b])), NumberedPatch(v, z, w), map[[X] := [a, b]])
  {
    NumberedContainers(v, z, w);
    Possible(UnderX(Arr([a, b])), NumberedPatch(v, z, w), [[], [X]], {[]});
    Possible(UnderX(Arr([a, b])), NumberedPatch(v, z, w), [[X], []], {[X]});
    NumberedArrays(a, b);
  }

  lemma NumberedContainers(v: Json, z: Json, w: Json)
    ensures OrderOf(NumberedPatch(v, z, w), [[], [X]]) && TrackedBy(NumberedPatch(v, z, w), [[], [X]]) == {[]}
    ensures OrderOf(NumberedPatch(v, z, w), [[X], []]) && TrackedBy(NumberedPatch(v, z, w), [[X], []]) == {[X]}
  {
    assert [Num(5)][..0] == [] && [X, Num(0)][..1] == [X] && !HasNewline(X);
    TwoOrders(NumberedPatch(v, z, w), [], [X]);
  }

  lemma NumberedArrays(a: Json, b: Json)
    ensures ShadowArrays(UnderX(Arr([a, b])), {[]}) == map[]
    ensures ShadowArrays(UnderX(Arr([a, b])), {[X]}) == map[[X] := [a, b]]
  {
    assert [X][1..] == [];
    assert Get(UnderX(Arr([a, b])), [X]) == Some(Arr([a, b]));
  }

  lemma NumberedAdds(d: Json, a: Json, b: Json, z: Json) returns (d': Json)
    requires d.Obj? && X in d.fields && d.fields[X] == Arr([a, b])
    ensures ApplyOp(d, Add([X, Num(0)], z)) == Some(d') && Get(d', [X, Num(2)]) == Some(b)
  {
    assert [X, Num(0)][1..] == [Num(0)] && Child(d, X) == Some(Arr([a, b]));
    assert Insert([a, b], 0, z) == [z, a, b];
    assert ApplyEdit(Arr([a, b]), [Num(0)], Put(z)) == Some(Arr([z, a, b]));
    d' := Obj(d.fields[X := Arr([z, a, b])]);
    assert [X, Num(2)][1..] == [Num(2)] && [Num(2)][1..] == [];
    assert Get(Arr([z, a, b]), [Num(2)]) == Some(b);
  }

  lemma NumberedReplay(a: Json, b: Json, v: Json, z: Json, w: Json)
    ensures Overwritten(UnderX(Arr([a, b])), NumberedPatch(v, z, w), 2) == Some(b)
  {
    var ops, before := NumberedPatch(v, z, w), UnderX(Arr([a, b]));
    ThreeOps(before, map[], ops);
    var d := Obj(before.fields[Num(5) := v]);
    assert ApplyOp(before, ops[0]) == Some(d);
    var d' := NumberedAdds(d, a, b, z);
  }

  lemma NumberedUntracked(a: Json, b: Json, v: Json, z: Json, w: Json)
    ensures Reported(UnderX(Arr([a, b])), map[], NumberedPatch(v, z, w), 2) == Some(Null)
  {
    var ops := NumberedPatch(v, z, w);
    TwoOps(Null, map[], ops[0], ops[1]);
    assert ops[..2] == [ops[0], ops[1]];
    LastReported(UnderX(Arr([a, b])), map[], ops, map[]);
    assert [X, Num(2)][1..] == [Num(2)];
    assert Child(UnderX(Arr([a, b])), X) == Some(Arr([a, b]));
    assert Get(Arr([a, b]), [Num(2)]).None?;
  }

  lemma NumberedTracked(a: Json, b: Json, v: Json, z: Json, w: Json)
    ensures Reported(UnderX(Arr([a, b])), map[[X] := [a, b]], NumberedPatch(v, z, w), 2) == Some(b)
  {
    var ops := NumberedPatch(v, z, w);
    var lists: Lists := map[[X] := [a, b]];
    assert ops[..2] == [ops[0], ops[1]];
    assert Source(ops[0].path, lists.Keys).None?;
    TwoOps(Null, lists, ops[0], ops[1]);
    StepAtX([a, b], ops[1], [Num(0)]);
    assert Insert([a, b], 0, z) == [z, a, b];
    LastReported(UnderX(Arr([a, b])), lists, ops, map[[X] := [z, a, b]]);
    LookupAtX(UnderX(Arr([a, b])), [z, a, b], [Num(2)]);
    assert [X] + [Num(2)] == [X, Num(2)];
    assert Get(Arr([z, a, b]), [Num(2)]) == Some(b) by { assert [Num(2)][1..] == []; }
  }

  /**
   Containers are texts, not arrays: when the root object wins the search for a container above the replace it is then
   dropped, x is not copied, and the report is wrong unless the overwritten value was null.
   */
  lemma ContainerThatIsNoArray(a: Json, b: Json, v: Json, z: Json, w: Json)
    ensures var before, patch := UnderX(Arr([a, b])), NumberedPatch(v, z, w);
      && PossibleShadows(before, patch, map[]) && PossibleShadows(before, patch, map[[X] := [a, b]])
      && Reported(before, map[[X] := [a, b]], patch, 2) == Overwritten(before, patch, 2)
      && (Reported(before, map[], patch, 2) == Overwritten(before, patch, 2) <==> b == Null)
  {
    NumberedTracking(a, b, v, z, w);
    NumberedReplay(a, b, v, z, w);
    NumberedUntracked(a, b, v, z, w);
    NumberedTracked(a, b, v, z, w);
  }
}
