/**
 Why a copy of part of a document can stand in for the document at one location: two documents that agree at a
 location keep agreeing there when both take the same edit.
 */
module JsonShadow {
  import opened Wrappers
  import opened JsonDocument

  /** Location r exists in both documents, has the same value in both, and is reached through arrays where the
      other is reached through arrays. */
  predicate Agree(x: Json, s: Json, r: Path)
    decreases r
  {
    if r == [] then x == s
    else
      && x.Arr? == s.Arr?
      && Child(x, r[0]).Some? && Child(s, r[0]).Some?
      && Agree(Child(x, r[0]).value, Child(s, r[0]).value, r[1..])
  }

  lemma {:induction false} AgreeGet(x: Json, s: Json, r: Path)
    requires Agree(x, s, r)
    ensures Get(x, r).Some? && Get(s, r) == Get(x, r)
    decreases r
  {
    if r != [] {
      AgreeGet(Child(x, r[0]).value, Child(s, r[0]).value, r[1..]);
    }
  }

  lemma {:induction false} AgreeSelf(x: Json, r: Path)
    requires Get(x, r).Some?
    ensures Agree(x, x, r)
    decreases r
  {
    if r != [] {
      AgreeSelf(Child(x, r[0]).value, r[1..]);
    }
  }

  /** Agreement at a location survives an edit elsewhere in one of the two documents. */
  lemma {:induction false} AgreeUntouched(x: Json, s: Json, p: Path, e: Edit, r: Path)
    requires ApplyEdit(x, p, e).Some? && !Touches(x, p, e, r)
    requires Agree(x, s, r)
    ensures Agree(ApplyEdit(x, p, e).value, s, r)
    decreases p
  {
    if |p| == 1 {
      assert Get(x, p[..0]) == Some(x);
      assert p[..0] <= r;
      assert p[0] != r[0] by { assert !(p <= r); }
      assert Child(EditHere(x, p[0], e).value, r[0]) == Child(x, r[0]);
    } else if r[0] == p[0] {
      assert p == [p[0]] + p[1..] && r == [r[0]] + r[1..];
      ShiftSlotStep(x, p, e);
      var c := Child(x, p[0]).value;
      match ShiftSlot(c, p[1..], e) {
        case Some(k) => AtOrAfterStep(p, k, r);
        case None =>
      }
      AgreeUntouched(c, Child(s, p[0]).value, p[1..], e, r[1..]);
    }
  }

  /** Agreement moves with the element when both documents take the same edit. */
  lemma {:induction false} AgreeBoth(x: Json, s: Json, p: Path, e: Edit, r: Path)
    requires ApplyEdit(x, p, e).Some? && ApplyEdit(s, p, e).Some?
    requires Back(x, p, e, r).Some? && Agree(x, s, Back(x, p, e, r).value)
    requires Get(ApplyEdit(x, p, e).value, r).Some?
    ensures Agree(ApplyEdit(x, p, e).value, ApplyEdit(s, p, e).value, r)
    decreases p
  {
    var r0 := Back(x, p, e, r).value;
    if p == [] || r == [] {
    } else if |p| == 1 {
      assert Get(x, p[..0]) == Some(x);
      assert p[..0] <= r;
      AgreeBothHere(x, s, p[0], e, r, r0);
    } else {
      ShiftSlotStep(x, p, e);
      assert p == [p[0]] + p[1..] && r == [r[0]] + r[1..];
      if r[0] == p[0] {
        var c, cs := Child(x, p[0]).value, Child(s, p[0]).value;
        BackStep(x, p, e, r);
        AgreeBoth(c, cs, p[1..], e, r[1..]);
      } else {
        match ShiftSlot(x, p, e) {
          case Some(k) =>
            if AtOrAfter(p, k, r) { AtOrAfterSame(p, k, r); }
          case None =>
        }
      }
    }
  }

  lemma BackStep(x: Json, p: Path, e: Edit, r: Path)
    requires |p| > 1 && Child(x, p[0]).Some? && r != [] && r[0] == p[0]
    ensures var b := Back(Child(x, p[0]).value, p[1..], e, r[1..]);
            Back(x, p, e, r) == (match b case None => None case Some(r1) => Some([r[0]] + r1))
  {
    assert p == [p[0]] + p[1..] && r == [r[0]] + r[1..];
    ShiftSlotStep(x, p, e);
    match ShiftSlot(x, p, e) {
      case Some(k) =>
        AtOrAfterStep(p, k, r);
        var m := |p| - 1;
        if AtOrAfter(p, k, r) {
          var up, down := Num(r[m].n + 1), Num(if r[m].n > 0 then r[m].n - 1 else 0);
          assert r[m := up] == [r[0]] + r[1..][m - 1 := up];
          assert r[m := down] == [r[0]] + r[1..][m - 1 := down];
        }
      case None =>
    }
  }

  lemma AgreeBothHere(x: Json, s: Json, t: Token, e: Edit, r: Path, r0: Path)
    requires r != [] && EditHere(x, t, e).Some? && EditHere(s, t, e).Some?
    requires Back(x, [t], e, r) == Some(r0) && Agree(x, s, r0)
    requires Get(EditHere(x, t, e).value, r).Some?
    ensures Agree(EditHere(x, t, e).value, EditHere(s, t, e).value, r)
  {
    var p := [t];
    assert p[..0] == [] && Get(x, p[..0]) == Some(x);
    var x', s' := EditHere(x, t, e).value, EditHere(s, t, e).value;
    assert r == [r[0]] + r[1..];
    if ShiftSlot(x, p, e).Some? {
      assert r0[1..] == r[1..];
      assert Child(x', r[0]) == Child(x, r0[0]);
      assert Child(s', r[0]) == Child(s, r0[0]);
    } else {
      assert r0 == r && !(p <= r);
      assert r[0] != t;
      assert Child(x', r[0]) == Child(x, r[0]) && Child(s', r[0]) == Child(s, r[0]);
    }
  }

  /** What an edit moved to r was at r's former location. */
  lemma {:induction false} BackExists(x: Json, p: Path, e: Edit, r: Path)
    requires ApplyEdit(x, p, e).Some? && Back(x, p, e, r).Some?
    requires Get(ApplyEdit(x, p, e).value, r).Some?
    ensures Get(x, Back(x, p, e, r).value).Some?
    decreases p
  {
    assert p != [] by { assert p == [] ==> p <= r; }
    if r == [] {
      assert Back(x, p, e, r) == Some(r);
    } else if |p| == 1 {
      assert Get(x, p[..0]) == Some(x) && p[..0] <= r;
      var x' := EditHere(x, p[0], e).value;
      var r0 := Back(x, p, e, r).value;
      assert r0[1..] == r[1..];
      if ShiftSlot(x, p, e).None? { assert r[0] != p[0] by { assert r == [r[0]] + r[1..]; } }
      assert Child(x', r[0]) == Child(x, r0[0]);
    } else {
      ShiftSlotStep(x, p, e);
      assert p == [p[0]] + p[1..] && r == [r[0]] + r[1..];
      if r[0] == p[0] {
        BackStep(x, p, e, r);
        BackExists(Child(x, p[0]).value, p[1..], e, r[1..]);
      } else {
        match ShiftSlot(x, p, e) {
          case Some(k) => if AtOrAfter(p, k, r) { AtOrAfterSame(p, k, r); }
          case None =>
        }
      }
    }
  }
}
