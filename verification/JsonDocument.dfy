/**
 JSON documents, pointers into them (section 4 of RFC 6901) and the operations of a JSON Patch
 (section 4 of RFC 6902). This is the reference meaning of a patch: apply its operations to the whole
 document, one after the other.
 */
module JsonDocument {
  import opened Sequences
  import opened Wrappers

  /**
   One reference token, unescaped. `Num(n)` is the token whose text is the canonical decimal numeral of n:
   it names position n of an array, and the member called "n" of an object. `Name(s)` is any other text.
   */
  datatype Token = Num(n: nat) | Name(s: string)

  type Path = seq<Token>

  const DASH: Token := Name("-")

  datatype Json =
    | Null
    | Scalar(text: string)
    | Arr(items: seq<Json>)
    | Obj(fields: map<Token, Json>)

  datatype Edit = Put(v: Json) | Delete | Overwrite(v: Json)

  datatype Op =
    | Add(path: Path, value: Json)
    | Remove(path: Path)
    | Replace(path: Path, value: Json)
    | Move(from: Path, path: Path)
    | Copy(from: Path, path: Path)
    | Test(path: Path, value: Json)

  // ----- reading ------------------------------------------------------------------------------------

  function Child(d: Json, t: Token): Option<Json> {
    match d
    case Obj(fields) => if t in fields then Some(fields[t]) else None
    case Arr(items) => if t.Num? && t.n < |items| then Some(items[t.n]) else None
    case _ => None
  }

  function Get(d: Json, p: Path): Option<Json>
    decreases p
  {
    if p == [] then Some(d)
    else match Child(d, p[0])
         case Some(c) => Get(c, p[1..])
         case None => None
  }

  // ----- editing ------------------------------------------------------------------------------------

  function WithChild(d: Json, t: Token, c: Json): (r: Json)
    requires Child(d, t).Some?
    ensures Child(r, t) == Some(c)
    ensures forall u :: u != t ==> Child(r, u) == Child(d, u)
    ensures r.Arr? == d.Arr? && r.Obj? == d.Obj?
    ensures d.Arr? ==> |r.items| == |d.items|
  {
    match d
    case Obj(fields) => Obj(fields[t := c])
    case Arr(items) => Arr(items[t.n := c])
  }

  function Insert<T>(s: seq<T>, i: nat, v: T): seq<T>
    requires i <= |s|
  {
    s[..i] + [v] + s[i..]
  }

  /** The edit at a member or position t of d itself; None where RFC 6902 makes it an error. */
  function EditHere(d: Json, t: Token, e: Edit): Option<Json> {
    match (d, e)
    case (Obj(fields), Put(v)) => Some(Obj(fields[t := v]))
    case (Arr(items), Put(v)) =>
      if t == DASH then Some(Arr(items + [v]))
      else if t.Num? && t.n <= |items| then Some(Arr(Insert(items, t.n, v)))
      else None
    case (Obj(fields), Delete) => if t in fields then Some(Obj(fields - {t})) else None
    case (Arr(items), Delete) => if t.Num? && t.n < |items| then Some(Arr(RemoveAt(items, t.n))) else None
    case (_, Overwrite(v)) => if Child(d, t).Some? then Some(WithChild(d, t, v)) else None
    case _ => None
  }

  function ApplyEdit(d: Json, p: Path, e: Edit): Option<Json>
    decreases p
  {
    if p == [] then (if e.Delete? then None else Some(e.v))
    else if |p| == 1 then EditHere(d, p[0], e)
    else match Child(d, p[0])
         case None => None
         case Some(c) =>
           match ApplyEdit(c, p[1..], e)
           case None => None
           case Some(c') => Some(WithChild(d, p[0], c'))
  }

  function ApplyOp(d: Json, op: Op): Option<Json> {
    match op
    case Add(p, v) => ApplyEdit(d, p, Put(v))
    case Remove(p) => ApplyEdit(d, p, Delete)
    case Replace(p, v) => ApplyEdit(d, p, Overwrite(v))
    case Test(p, v) => if Get(d, p) == Some(v) then Some(d) else None
    case Copy(f, p) => (match Get(d, f) case Some(v) => ApplyEdit(d, p, Put(v)) case None => None)
    case Move(f, p) =>
      if f < p then None  // a value cannot be moved into its own children
      else match (Get(d, f), ApplyEdit(d, f, Delete))
           case (Some(v), Some(d')) => ApplyEdit(d', p, Put(v))
           case _ => None
  }

  /** The reference meaning of a patch; None when some operation of it is an error. */
  function Replay(d: Json, ops: seq<Op>): Option<Json> {
    if ops == [] then Some(d)
    else match Replay(d, ops[..|ops| - 1])
         case None => None
         case Some(d') => ApplyOp(d', ops[|ops| - 1])
  }

  // ----- what an edit does to one location ---------------------------------------------------------

  /** The position at which an edit at p inserts into, or deletes from, an array; None when it shifts nothing. */
  function ShiftSlot(d: Json, p: Path, e: Edit): Option<nat> {
    if p == [] || e.Overwrite? then None
    else
      var t := p[|p| - 1];
      match Get(d, p[..|p| - 1])
      case Some(Arr(items)) =>
        if t.Num? then Some(t.n) else if t == DASH && e.Put? then Some(|items|) else None
      case _ => None
  }

  /** r passes through a position, numbered k or higher, of the array that holds the element at p. */
  predicate AtOrAfter(p: Path, k: nat, r: Path)
    requires p != []
  {
    var m := |p| - 1;
    p[..m] <= r && m < |r| && r[m].Num? && r[m].n >= k
  }

  /** The edit at p writes at, above or inside location r, or moves the element there. */
  predicate Touches(d: Json, p: Path, e: Edit, r: Path) {
    r <= p || p <= r ||
    (match ShiftSlot(d, p, e) case Some(k) => AtOrAfter(p, k, r) case None => false)
  }

  /**
   Where the element now at r was before the edit at p, following it back through the shift of an array;
   None when the edit itself put it there. An edit inside the element leaves it where it was.
   */
  function Back(d: Json, p: Path, e: Edit, r: Path): Option<Path> {
    match ShiftSlot(d, p, e)
    case None => if p <= r then None else Some(r)
    case Some(k) =>
      if !AtOrAfter(p, k, r) then Some(r)
      else
        var m := |p| - 1;
        if e.Delete? then Some(r[m := Num(r[m].n + 1)])
        else if r[m].n == k then None
        else Some(r[m := Num(r[m].n - 1)])
  }

  // ----- lemmas -------------------------------------------------------------------------------------

  lemma {:induction false} GetSplit(d: Json, p: Path, q: Path)
    ensures Get(d, p + q) == (match Get(d, p) case Some(c) => Get(c, q) case None => None)
    decreases p
  {
    if p == [] {
      assert p + q == q;
    } else {
      assert (p + q)[0] == p[0] && (p + q)[1..] == p[1..] + q;
      match Child(d, p[0])
      case Some(c) => GetSplit(c, p[1..], q);
      case None =>
    }
  }

  /** An edit below location c changes the document at c, and is the same edit made there. */
  lemma {:induction false} EditBelow(d: Json, c: Path, p: Path, e: Edit)
    requires p != []
    ensures ApplyEdit(d, c + p, e).Some? ==>
      && Get(d, c).Some?
      && ApplyEdit(Get(d, c).value, p, e).Some?
      && Get(ApplyEdit(d, c + p, e).value, c) == ApplyEdit(Get(d, c).value, p, e)
    decreases c
  {
    if c == [] {
      assert c + p == p;
    } else {
      assert (c + p)[0] == c[0] && (c + p)[1..] == c[1..] + p;
      match Child(d, c[0])
      case Some(x) => EditBelow(x, c[1..], p, e);
      case None =>
    }
  }

  lemma ShiftSlotStep(d: Json, p: Path, e: Edit)
    requires |p| > 1
    ensures ShiftSlot(d, p, e) ==
            (match Child(d, p[0]) case Some(c) => ShiftSlot(c, p[1..], e) case None => None)
  {
    var q := p[1..];
    assert p[..|p| - 1][0] == p[0] && p[..|p| - 1][1..] == q[..|q| - 1];
  }

  lemma AtOrAfterStep(p: Path, k: nat, r: Path)
    requires |p| > 1 && r != [] && r[0] == p[0]
    ensures AtOrAfter(p, k, r) <==> AtOrAfter(p[1..], k, r[1..])
  {
    var m := |p| - 1;
    assert p == [p[0]] + p[1..] && r == [r[0]] + r[1..];
    assert p[..m] == [p[0]] + p[1..][..m - 1];
  }

  lemma AtOrAfterSame(p: Path, k: nat, r: Path)
    requires |p| > 1 && AtOrAfter(p, k, r)
    ensures r != [] && r[0] == p[0]
  {
    assert p[..|p| - 1][0] == p[0];
  }

  /** An edit that does not touch a location leaves what is there, present or absent, as it was. */
  lemma {:induction false} UntouchedStays(d: Json, p: Path, e: Edit, r: Path)
    requires ApplyEdit(d, p, e).Some? && !Touches(d, p, e, r)
    ensures Get(ApplyEdit(d, p, e).value, r) == Get(d, r)
    decreases p
  {
    if |p| == 1 {
      assert Get(d, p[..0]) == Some(d);
      assert p[..0] <= r;
      assert p[0] != r[0] by { assert !(p <= r); }
      assert Child(EditHere(d, p[0], e).value, r[0]) == Child(d, r[0]);
    } else if r[0] == p[0] {
      assert p == [p[0]] + p[1..] && r == [r[0]] + r[1..];
      ShiftSlotStep(d, p, e);
      var c := Child(d, p[0]).value;
      match ShiftSlot(c, p[1..], e) {
        case Some(k) => AtOrAfterStep(p, k, r);
        case None =>
      }
      UntouchedStays(c, p[1..], e, r[1..]);
    }
  }
}
