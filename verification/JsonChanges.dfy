/**
 `json_changes`: the overwritten value of every `replace` of a patch, computed from copies of the arrays whose
 positions shift instead of from the whole patched document.
 */
module JsonChanges {
  import opened Sequences
  import opened Wrappers
  import opened JsonDocument
  import Decimal

  datatype Error = ValueError | IndexError | PatchConflict

  /** An operation of the patch and, for a `replace`, the overwritten value (Null when none was found). */
  datatype Change = Change(op: Op, replaced: Json)

  type Lists = map<Path, seq<Json>>

  predicate Structural(op: Op) {
    op.Add? || op.Remove?
  }

  // ----- which arrays are tracked -------------------------------------------------------------------

  /** The text of t matches (\d+)$, which also allows one trailing newline. */
  predicate EndsInDigits(t: Token) {
    t.Num? || Decimal.AllDigits(t.s) ||
    (t.s != "" && t.s[|t.s| - 1] == '\n' && Decimal.AllDigits(t.s[..|t.s| - 1]))
  }

  predicate HasNewline(t: Token) {
    t.Name? && '\n' in t.s
  }

  /** The container that _ARRAY_INDEX_RE finds in a path. The dot of the pattern matches no newline. */
  function ArrayOf(p: Path): Option<Path> {
    if p != [] && EndsInDigits(p[|p| - 1]) && forall t <- p[..|p| - 1] :: !HasNewline(t)
    then Some(p[..|p| - 1]) else None
  }

  predicate StructuralContainer(patch: seq<Op>, c: Path) {
    exists op <- patch :: Structural(op) && ArrayOf(op.path) == Some(c)
  }

  predicate ReplacesBelow(patch: seq<Op>, c: Path) {
    exists op <- patch :: op.Replace? && c < op.path
  }

  /** An order in which Python iterates over the set of containers: arbitrary, but the same for every replace. */
  ghost predicate OrderOf(patch: seq<Op>, order: seq<Path>) {
    Distinct(order) && forall c :: c in order <==> StructuralContainer(patch, c)
  }

  /** The first container above a path. */
  function FirstIn(order: seq<Path>, p: Path): (r: Option<Path>)
    ensures r.Some? ==> r.value in order && r.value < p
    ensures r.None? <==> forall c <- order :: !(c < p)
  {
    if order == [] then None
    else if order[0] < p then Some(order[0])
    else
      assert order == [order[0]] + order[1..];
      FirstIn(order[1..], p)
  }

  /** What is tracked when the containers come in this order: for each replace the first one above it, and no other. */
  function TrackedBy(patch: seq<Op>, order: seq<Path>): set<Path> {
    set op | op in patch && op.Replace? && FirstIn(order, op.path).Some? :: FirstIn(order, op.path).value
  }

  ghost predicate PossibleTracking(patch: seq<Op>, tracked: set<Path>) {
    exists order :: OrderOf(patch, order) && tracked == TrackedBy(patch, order)
  }

  /** What holds whatever the order. */
  ghost predicate ValidTracking(patch: seq<Op>, tracked: set<Path>) {
    && (forall c <- tracked :: StructuralContainer(patch, c) && ReplacesBelow(patch, c))
    && (forall op <- patch :: op.Replace? && BelowStructural(patch, op.path) ==> BelowSome(tracked, op.path))
  }

  ghost predicate BelowStructural(patch: seq<Op>, p: Path) {
    exists c: Path :: StructuralContainer(patch, c) && c < p
  }

  predicate BelowSome(cs: set<Path>, p: Path) {
    exists c <- cs :: c < p
  }

  method StructuralContainers(patch: seq<Op>) returns (cs: set<Path>)
    ensures forall c :: c in cs <==> StructuralContainer(patch, c)
  {
    cs := {};
    for i := 0 to |patch|
      invariant forall c :: c in cs <==> StructuralContainer(patch[..i], c)
    {
      var op := patch[i];
      assert patch[..i + 1] == patch[..i] + [op];
      if Structural(op) && ArrayOf(op.path).Some? {
        cs := cs + {ArrayOf(op.path).value};
      }
    }
    assert patch[..|patch|] == patch;
  }

  /** The order in which the elements of a set come, which is arbitrary. */
  method SomeOrder(cs: set<Path>) returns (order: seq<Path>)
    ensures Distinct(order) && forall c :: c in order <==> c in cs
  {
    order := [];
    var rest := cs;
    while rest != {}
      invariant rest <= cs && Distinct(order) && forall c :: c in order <==> c in cs - rest
    {
      var c :| c in rest;
      assert c !in order;
      order := order + [c];
      rest := rest - {c};
    }
  }

  /** The inner loop, which breaks at the first container above a path. */
  method FirstAbove(order: seq<Path>, p: Path) returns (r: Option<Path>)
    ensures r == FirstIn(order, p)
    ensures match r
            case Some(c) => exists i :: 0 <= i < |order| && order[i] == c && c < p && forall j :: 0 <= j < i ==> !(order[j] < p)
            case None => forall c <- order :: !(c < p)
  {
    for i := 0 to |order|
      invariant FirstIn(order, p) == FirstIn(order[i..], p)
      invariant forall j :: 0 <= j < i ==> !(order[j] < p)
    {
      if order[i] < p { return Some(order[i]); }
    }
    return None;
  }

  method GetTrackedContainers(patch: seq<Op>) returns (tracked: set<Path>)
    ensures PossibleTracking(patch, tracked)
  {
    var containers := StructuralContainers(patch);
    var order := SomeOrder(containers);
    tracked := {};
    for i := 0 to |patch|
      invariant tracked == TrackedBy(patch[..i], order)
    {
      var op := patch[i];
      assert patch[..i + 1] == patch[..i] + [op];
      if op.Replace? {
        var first := FirstAbove(order, op.path);
        if first.Some? {
          tracked := tracked + {first.value};
        }
      }
    }
    assert patch[..|patch|] == patch;
    assert OrderOf(patch, order);
  }

  lemma TrackingIsValid(patch: seq<Op>, order: seq<Path>)
    requires OrderOf(patch, order)
    ensures ValidTracking(patch, TrackedBy(patch, order))
  {
    forall op | op in patch && op.Replace? && BelowStructural(patch, op.path)
      ensures BelowSome(TrackedBy(patch, order), op.path)
    {
      var first := FirstIn(order, op.path);
      assert first.Some? && first.value in TrackedBy(patch, order);
    }
  }

  // ----- which tracked array a path belongs to ------------------------------------------------------

  /** The longest of the containers that lie above a path. */
  function Active(p: Path, cs: set<Path>): (r: Option<Path>)
    ensures r.Some? ==> r.value in cs && r.value < p && forall c <- cs :: c < p ==> |c| <= |r.value|
    ensures r.None? ==> forall c <- cs :: !(c < p)
  {
    LongestBelow(p, cs, |p|)
  }

  function LongestBelow(p: Path, cs: set<Path>, n: nat): (r: Option<Path>)
    requires n <= |p|
    ensures r.Some? ==> r.value in cs && r.value < p && forall c <- cs :: c < p && |c| < n ==> |c| <= |r.value|
    ensures r.None? ==> forall c <- cs :: c < p ==> n <= |c|
  {
    if n == 0 then None
    else if p[..n - 1] in cs then Some(p[..n - 1])
    else
      assert forall c <- cs :: c < p && |c| == n - 1 ==> c == p[..n - 1];
      LongestBelow(p, cs, n - 1)
  }

  method GetActiveContainer(p: Path, tracked: set<Path>) returns (best: Option<Path>)
    ensures best == Active(p, tracked)
  {
    best := None;
    var rest := tracked;
    while rest != {}
      invariant rest <= tracked
      invariant best.Some? ==> best.value in tracked - rest && best.value < p
      invariant forall c <- tracked - rest :: c < p ==> best.Some? && |c| <= |best.value|
    {
      var c :| c in rest;
      if c < p && (best.None? || |c| > |best.value|) {
        best := Some(c);
      }
      rest := rest - {c};
    }
    if best.Some? {
      var a := Active(p, tracked).value;
      assert |a| == |best.value|;
      assert a == p[..|a|] == best.value;
    }
  }

  /** The array the code consults and updates for a path. The root array has the empty name, which Python's
      truth test reads as no container at all. */
  function Source(p: Path, cs: set<Path>): Option<Path> {
    var c := Active(p, cs);
    if c.Some? && c.value != [] then c else None
  }

  // ----- the copies ---------------------------------------------------------------------------------

  function EditOf(op: Op): Edit
    requires op.Add? || op.Remove? || op.Replace?
  {
    match op
    case Add(_, v) => Put(v)
    case Remove(_) => Delete
    case Replace(_, v) => Overwrite(v)
  }

  function IntOf(t: Token): Result<nat, Error> {
    match t
    case Num(n) => Success(n)
    case Name(s) => if Decimal.AllDigits(s) then Success(Decimal.FromText(s)) else Failure(ValueError)
  }

  /** The outcome of _apply_fast_list_op. Python's insert clamps its index; pop rejects one out of range. */
  function FastListOp(target: seq<Json>, op: Op, rel: Path): Result<seq<Json>, Error>
    requires Structural(op) && rel != []
  {
    if |rel| == 1 then
      match op
      case Add(_, v) =>
        if rel[0] == DASH then Success(target + [v])
        else (match IntOf(rel[0])
              case Failure(e) => Failure(e)
              case Success(i) => Success(Insert(target, if i <= |target| then i else |target|, v)))
      case Remove(_) =>
        (match IntOf(rel[0])
         case Failure(e) => Failure(e)
         case Success(i) => if i < |target| then Success(RemoveAt(target, i)) else Failure(IndexError))
    else
      match ApplyEdit(Arr(target), rel, EditOf(op))
      case Some(Arr(items)) => Success(items)
      case _ => Failure(PatchConflict)
  }

  predicate IsArray(d: Json, c: Path) {
    Get(d, c).Some? && Get(d, c).value.Arr?
  }

  function ShadowArrays(before: Json, tracked: set<Path>): Lists {
    map c | c in tracked && Get(before, c).Some? && Get(before, c).value.Arr? :: Get(before, c).value.items
  }

  function ShadowStep(lists: Lists, op: Op): Result<Lists, Error> {
    var src := Source(op.path, lists.Keys);
    if src.None? || !Structural(op) then Success(lists)
    else
      var c := src.value;
      match FastListOp(lists[c], op, op.path[|c|..])
      case Failure(e) => Failure(e)
      case Success(items) => Success(lists[c := items])
  }

  function ShadowRun(lists: Lists, ops: seq<Op>): (r: Result<Lists, Error>)
    ensures r.Success? ==> r.value.Keys == lists.Keys
  {
    if ops == [] then Success(lists)
    else match ShadowRun(lists, ops[..|ops| - 1])
         case Failure(e) => Failure(e)
         case Success(ls) => ShadowStep(ls, ops[|ops| - 1])
  }

  /** A copy of the root is never consulted. */
  lemma {:induction false} NothingTaken(lists: Lists, ops: seq<Op>)
    requires forall a <- lists :: a == []
    ensures ShadowRun(lists, ops) == Success(lists)
  {
    if ops != [] { NothingTaken(lists, ops[..|ops| - 1]); }
  }

  /** The value reported as overwritten; a pointer that finds nothing reports Null. */
  function Lookup(before: Json, lists: Lists, p: Path): Json {
    var found := match Source(p, lists.Keys)
                 case Some(c) => Get(Arr(lists[c]), p[|c|..])
                 case None => Get(before, p);
    match found case Some(v) => v case None => Null
  }

  function ChangeAt(before: Json, lists: Lists, op: Op): Change {
    Change(op, if op.Replace? then Lookup(before, lists, op.path) else Null)
  }

  class ShadowState {
    var lists: Lists

    constructor (before: Json, tracked: set<Path>)
      ensures lists == ShadowArrays(before, tracked)
    {
      var ls: Lists := map[];
      var rest := tracked;
      while rest != {}
        invariant rest <= tracked && ls == ShadowArrays(before, tracked - rest)
      {
        var c :| c in rest;
        rest := rest - {c};
        match Get(before, c)
        case Some(Arr(items)) => ls := ls[c := items];
        case _ =>
      }
      assert tracked - rest == tracked;
      lists := ls;
    }

    method ApplyFastListOp(c: Path, op: Op, rel: Path) returns (error: Option<Error>)
      requires c in lists && Structural(op) && rel != []
      modifies this
      ensures match FastListOp(old(lists[c]), op, rel)
              case Success(items) => error == None && lists == old(lists)[c := items]
              case Failure(e) => error == Some(e) && lists == old(lists)
    {
      var target := lists[c];
      assert op.Add? ==> Insert(target, |target|, op.value) == target + [op.value];
      if |rel| == 1 {
        if op.Add? {
          var idx := |target|;
          if rel[0] != DASH {
            var i := IntOf(rel[0]);
            if i.Failure? { return Some(i.error); }
            if i.value < idx { idx := i.value; }
          }
          target := Insert(target, idx, op.value);
        } else {
          var i := IntOf(rel[0]);
          if i.Failure? { return Some(i.error); }
          if i.value >= |target| { return Some(IndexError); }
          target := RemoveAt(target, i.value);
        }
      } else {
        match ApplyEdit(Arr(target), rel, EditOf(op)) {
          case Some(Arr(items)) => target := items;
          case _ => return Some(PatchConflict);
        }
      }
      lists := lists[c := target];
      error := None;
    }

    /** One round of the loop of json_changes. */
    method Round(before: Json, tracked: set<Path>, op: Op) returns (change: Change, error: Option<Error>)
      requires tracked == lists.Keys
      modifies this
      ensures change == ChangeAt(before, old(lists), op)
      ensures change.op == op && (!op.Replace? ==> change.replaced == Null)
      ensures match ShadowStep(old(lists), op)
              case Success(ls) => error == None && lists == ls
              case Failure(e) => error == Some(e) && lists == old(lists)
    {
      var container := GetActiveContainer(op.path, tracked);
      var replaced := Null;
      if op.Replace? {
        var found := if container.Some? && container.value != []
                     then Get(Arr(lists[container.value]), op.path[|container.value|..])
                     else Get(before, op.path);
        if found.Some? { replaced := found.value; }
      }
      change := Change(op, replaced);
      error := None;
      if container.Some? && container.value != [] && Structural(op) {
        var c := container.value;
        error := ApplyFastListOp(c, op, op.path[|c|..]);
      }
    }
  }

  /** The initial copies, for one of the orders in which containers may be met. */
  ghost predicate PossibleShadows(before: Json, patch: seq<Op>, lists: Lists) {
    exists tracked :: PossibleTracking(patch, tracked) && lists == ShadowArrays(before, tracked)
  }

  lemma Possible(before: Json, patch: seq<Op>, order: seq<Path>, tracked: set<Path>)
    requires OrderOf(patch, order) && tracked == TrackedBy(patch, order)
    ensures PossibleShadows(before, patch, ShadowArrays(before, tracked))
  {
    assert PossibleTracking(patch, tracked);
  }

  lemma TrackingOf(before: Json, patch: seq<Op>, lists: Lists) returns (tracked: set<Path>)
    requires PossibleShadows(before, patch, lists)
    ensures ValidTracking(patch, tracked) && lists == ShadowArrays(before, tracked)
  {
    tracked :| PossibleTracking(patch, tracked) && lists == ShadowArrays(before, tracked);
    var order :| OrderOf(patch, order) && tracked == TrackedBy(patch, order);
    TrackingIsValid(patch, order);
  }

  lemma ListsAreContainers(before: Json, patch: seq<Op>, lists: Lists)
    requires PossibleShadows(before, patch, lists)
    ensures forall c <- lists :: StructuralContainer(patch, c) && IsArray(before, c)
  {
    var tracked := TrackingOf(before, patch, lists);
  }

  lemma OnlyTracked(patch: seq<Op>, tracked: set<Path>, c: Path, op: Op)
    requires ValidTracking(patch, tracked) && StructuralContainer(patch, c)
    requires forall a :: StructuralContainer(patch, a) ==> a == c
    requires op in patch && op.Replace? && c < op.path
    ensures tracked == {c}
  {
    assert BelowStructural(patch, op.path);
    assert BelowSome(tracked, op.path);
  }

  lemma ShadowOfOne(before: Json, c: Path, xs: seq<Json>)
    requires Get(before, c) == Some(Arr(xs))
    ensures ShadowArrays(before, {c}) == map[c := xs]
  {
  }

  /** Every list is the array that the document has under that name. */
  predicate CopiesOf(before: Json, lists: Lists) {
    forall c <- lists :: Get(before, c) == Some(Arr(lists[c]))
  }

  /** The reported changes: each is looked up in the copies as the earlier operations left them. */
  function AllChanges(before: Json, lists: Lists, ops: seq<Op>): (r: seq<Change>)
    requires ShadowRun(lists, ops).Success?
    ensures |r| == |ops|
  {
    if ops == [] then []
    else
      var prefix := ops[..|ops| - 1];
      AllChanges(before, lists, prefix) + [ChangeAt(before, ShadowRun(lists, prefix).value, ops[|ops| - 1])]
  }

  function ChangesResult(before: Json, lists: Lists, patch: seq<Op>): Result<Option<seq<Change>>, Error> {
    if patch == [] then Success(None)
    else match ShadowRun(lists, patch)
         case Failure(e) => Failure(e)
         case Success(_) => Success(Some(AllChanges(before, lists, patch)))
  }

  /** The result for one of the orders in which containers may be met. */
  ghost predicate PossibleResult(before: Json, patch: seq<Op>, r: Result<Option<seq<Change>>, Error>) {
    exists lists :: PossibleShadows(before, patch, lists) && r == ChangesResult(before, lists, patch)
  }

  lemma ShadowsAreCopies(before: Json, patch: seq<Op>, lists: Lists)
    requires PossibleShadows(before, patch, lists)
    ensures CopiesOf(before, lists)
  {
  }

  lemma {:induction false} ChangesOf(before: Json, lists: Lists, ops: seq<Op>)
    requires ShadowRun(lists, ops).Success?
    ensures forall k :: 0 <= k < |ops| ==>
              var change := AllChanges(before, lists, ops)[k];
              change.op == ops[k] && (!ops[k].Replace? ==> change.replaced == Null)
  {
    if ops != [] { ChangesOf(before, lists, ops[..|ops| - 1]); }
  }

  /** A call that does not raise answers None for no operations, else one change for each operation, in their order; only a
      replace has an overwritten value. */
  lemma ResultShape(before: Json, patch: seq<Op>, r: Result<Option<seq<Change>>, Error>)
    requires PossibleResult(before, patch, r)
    ensures r == Success(None) <==> patch == []
    ensures r.Success? && patch != [] ==> r.value.Some? && |r.value.value| == |patch|
    ensures r.Success? && patch != [] ==>
              forall k :: 0 <= k < |patch| ==>
                var change := r.value.value[k];
                change.op == patch[k] && (!patch[k].Replace? ==> change.replaced == Null)
  {
    var lists :| PossibleShadows(before, patch, lists) && r == ChangesResult(before, lists, patch);
    if r.Success? && patch != [] { ChangesOf(before, lists, patch); }
  }

  /** `json_changes` from the patch on. The patch itself comes from a library. */
  method JsonChanges(before: Json, patch: seq<Op>) returns (r: Result<Option<seq<Change>>, Error>)
    ensures PossibleResult(before, patch, r)
  {
    var tracked := GetTrackedContainers(patch);
    var shadow := new ShadowState(before, tracked);
    ghost var lists := shadow.lists;
    assert PossibleShadows(before, patch, lists);
    if patch == [] { return Success(None); }
    tracked := shadow.lists.Keys;
    var changes: seq<Change> := [];
    for i := 0 to |patch|
      invariant tracked == lists.Keys
      invariant ShadowRun(lists, patch[..i]) == Success(shadow.lists)
      invariant changes == AllChanges(before, lists, patch[..i])
    {
      RunStep(before, lists, patch, i);
      var change, error := shadow.Round(before, tracked, patch[i]);
      if error.Some? {
        return Failure(error.value);
      }
      changes := changes + [change];
    }
    assert patch[..|patch|] == patch;
    r := Success(Some(changes));
  }

  lemma RunStep(before: Json, lists: Lists, ops: seq<Op>, k: nat)
    requires k < |ops| && ShadowRun(lists, ops[..k]).Success?
    ensures var ls := ShadowRun(lists, ops[..k]).value;
            && ShadowRun(lists, ops[..k + 1]) == ShadowStep(ls, ops[k])
            && match ShadowStep(ls, ops[k])
               case Success(_) =>
                 AllChanges(before, lists, ops[..k + 1])
                   == AllChanges(before, lists, ops[..k]) + [ChangeAt(before, ls, ops[k])]
               case Failure(e) => ShadowRun(lists, ops) == Failure(e)
  {
    assert ops[..k + 1][..k] == ops[..k];
    if ShadowRun(lists, ops[..k + 1]).Failure? {
      RunFails(lists, ops, k + 1);
    }
  }

  /** An operation the copies reject ends the whole run with its error. */
  lemma {:induction false} RunFails(lists: Lists, ops: seq<Op>, k: nat)
    requires k <= |ops| && ShadowRun(lists, ops[..k]).Failure?
    ensures ShadowRun(lists, ops) == ShadowRun(lists, ops[..k])
    decreases |ops| - k
  {
    if k == |ops| {
      assert ops[..k] == ops;
    } else {
      assert ops[..k + 1][..k] == ops[..k];
      RunFails(lists, ops, k + 1);
    }
  }
}
