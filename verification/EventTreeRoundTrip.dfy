/** Flattening the tree of a well-nested transcript gives back the transcript. */
module EventTreeRoundTrip {
  import opened Sequences
  import opened Wrappers
  import opened EventTree

  /** The span that encloses span i of a stack of open spans. */
  function Enclosing(stack: seq<string>, i: nat): Option<string>
    requires i <= |stack|
  {
    if i == 0 then None else Some(stack[i - 1])
  }

  function Top(stack: seq<string>): Option<string> {
    Enclosing(stack, |stack|)
  }

  /**
   The open spans, outermost first, after a well-nested sequence of events: every event names the innermost open span,
   a span begins once, and only the innermost open span ends. None when the sequence is not well nested.
   */
  function OpenSpans(events: seq<Event>, known: set<string>): Option<seq<string>> {
    if events == [] then Some([])
    else
      var n := |events| - 1;
      var e := events[n];
      match OpenSpans(events[..n], known)
      case None => None
      case Some(stack) =>
        match e
        case Plain(_, _) => if Home(known, e) == Top(stack) then Some(stack) else None
        case SpanBegin(id, _, _, _, _) =>
          if Home(known, e) == Top(stack) && id in known && id != "" && (forall b <- events[..n] :: b.SpanBegin? ==> b.id != id)
          then Some(stack + [id]) else None
        case SpanEnd(id, _) => if Top(stack) == Some(id) then Some(stack[..|stack| - 1]) else None
  }

  /** Spans may be left open at the end. */
  predicate WellNested(events: seq<Event>) {
    OpenSpans(events, SpanIds(events)).Some?
  }

  /** Every open span is the last child of the one around it, and has no end event yet. */
  ghost predicate Spine(events: seq<Event>, known: set<string>, stack: seq<string>) {
    && UniqueBegins(events)
    && forall i :: 0 <= i < |stack| ==> LastChild(events, known, stack, i)
  }

  ghost predicate LastChild(events: seq<Event>, known: set<string>, stack: seq<string>, i: nat)
    requires i < |stack|
  {
    var b := Bucket(events, known, Enclosing(stack, i));
    && b != [] && b[|b| - 1].SpanBegin? && b[|b| - 1].id == stack[i]
    && EndOf(events, stack[i]) == []
  }

  lemma OnSpine(events: seq<Event>, known: set<string>, stack: seq<string>, i: nat, e: Event)
    requires Spine(events, known, stack) && i < |stack| && e in events && e.SpanBegin? && e.id == stack[i]
    ensures Home(known, e) == Enclosing(stack, i)
  {
    var b := Bucket(events, known, Enclosing(stack, i));
    assert LastChild(events, known, stack, i);
    FilterMember(events, ChildOf(known, Enclosing(stack, i)));
    assert b[|b| - 1] in b;
    SameBegin(events, e, b[|b| - 1]);
  }

  // ----- adding one event -----------------------------------------------------------------------------------

  /** What adding e at the end of a well-nested sequence leaves alone: the buckets and ends of spans not open. */
  ghost predicate OnlyOnStack(events: seq<Event>, e: Event, known: set<string>, stack: seq<string>) {
    if e.SpanEnd? then e.id in stack else Home(known, e) == Top(stack)
  }

  lemma OffStackSame(events: seq<Event>, e: Event, known: set<string>, stack: seq<string>, id: string)
    requires OnlyOnStack(events, e, known, stack) && id !in stack
    ensures Bucket(events + [e], known, Some(id)) == Bucket(events, known, Some(id))
    ensures EndOf(events + [e], id) == EndOf(events, id)
  {
    assert (events + [e])[..|events|] == events;
    FilterAppend(events, e, ChildOf(known, Some(id)));
  }

  /** Only the spans enclosing an open span have an open span among their children. */
  lemma ChildrenOffStack(events: seq<Event>, known: set<string>, stack: seq<string>, s: Option<string>)
    requires Spine(events, known, stack) && forall i :: 0 <= i < |stack| ==> Enclosing(stack, i) != s
    ensures forall c <- Bucket(events, known, s) :: c in events && (c.SpanBegin? ==> c.id !in stack)
  {
    FilterMember(events, ChildOf(known, s));
    forall c | c in Bucket(events, known, s) ensures c in events && (c.SpanBegin? ==> c.id !in stack) {
      if c.SpanBegin? && c.id in stack {
        var i :| 0 <= i < |stack| && stack[i] == c.id;
        OnSpine(events, known, stack, i, c);
        assert false;
      }
    }
  }

  /** Subtrees hanging off the stack of open spans emit the same events as before. */
  lemma {:induction false} EmitOffStack(events: seq<Event>, e: Event, known: set<string>, stack: seq<string>,
                                        items: seq<Event>, fuel: nat)
    requires Spine(events, known, stack) && OnlyOnStack(events, e, known, stack)
    requires forall b <- items :: b in events && (b.SpanBegin? ==> b.id !in stack)
    ensures Emit(events + [e], known, items, fuel) == Emit(events, known, items, fuel)
    decreases fuel, |items| + 2
  {
    if items != [] {
      assert items[0] in events;
      EmitOffStack(events, e, known, stack, items[1..], fuel);
      ChunkOffStack(events, e, known, stack, items[0], fuel);
    }
  }

  lemma {:induction false} ChunkOffStack(events: seq<Event>, e: Event, known: set<string>, stack: seq<string>,
                                         b: Event, fuel: nat)
    requires Spine(events, known, stack) && OnlyOnStack(events, e, known, stack)
    requires b in events && (b.SpanBegin? ==> b.id !in stack)
    ensures Chunk(events + [e], known, b, fuel) == Chunk(events, known, b, fuel)
    decreases fuel, 1
  {
    if b.SpanBegin? {
      OffStackSame(events, e, known, stack, b.id);
      InsideOffStack(events, e, known, stack, b.id, fuel);
    }
  }

  lemma {:induction false} InsideOffStack(events: seq<Event>, e: Event, known: set<string>, stack: seq<string>,
                                          id: string, fuel: nat)
    requires Spine(events, known, stack) && OnlyOnStack(events, e, known, stack) && id !in stack
    ensures Inside(events + [e], known, id, fuel) == Inside(events, known, id, fuel)
    decreases fuel, 0
  {
    if fuel > 0 {
      var items := Bucket(events, known, Some(id));
      assert Bucket(events + [e], known, Some(id)) == items by { OffStackSame(events, e, known, stack, id); }
      assert Emit(events + [e], known, items, fuel - 1) == Emit(events, known, items, fuel - 1) by {
        OffStackBucket(events, known, stack, id);
        EmitOffStack(events, e, known, stack, items, fuel - 1);
      }
    }
  }

  lemma OffStackBucket(events: seq<Event>, known: set<string>, stack: seq<string>, id: string)
    requires Spine(events, known, stack) && id !in stack
    ensures forall b <- Bucket(events, known, Some(id)) :: b in events && (b.SpanBegin? ==> b.id !in stack)
  {
    forall i | 0 <= i < |stack| ensures Enclosing(stack, i) != Some(id) {}
    ChildrenOffStack(events, known, stack, Some(id));
  }

  /** The children of an enclosing span before its open child, none of them open. */
  lemma Siblings(events: seq<Event>, known: set<string>, stack: seq<string>, i: nat)
    requires Spine(events, known, stack) && Distinct(stack) && i < |stack|
    ensures var b := Bucket(events, known, Enclosing(stack, i));
            var n := |b| - 1;
      && b != [] && b == b[..n] + [b[n]] && b[n].SpanBegin? && b[n].id == stack[i]
      && forall c <- b[..n] :: c in events && (c.SpanBegin? ==> c.id !in stack)
  {
    var s := Enclosing(stack, i);
    var b := Bucket(events, known, s);
    var n := |b| - 1;
    assert LastChild(events, known, stack, i);
    FilterMember(events, ChildOf(known, s));
    FilterUnique(events, ChildOf(known, s));
    forall k | 0 <= k < n ensures b[k] in events && (b[k].SpanBegin? ==> b[k].id !in stack) {
      assert b[k] in b;
      if b[k].SpanBegin? && b[k].id in stack {
        var j :| 0 <= j < |stack| && stack[j] == b[k].id;
        OnSpine(events, known, stack, j, b[k]);
        EnclosingOnce(stack, i, j);
        assert false;
      }
    }
  }

  lemma EnclosingOnce(stack: seq<string>, i: nat, j: nat)
    requires Distinct(stack) && i < |stack| && j < |stack| && Enclosing(stack, i) == Enclosing(stack, j)
    ensures i == j
  {
  }

  /** The added event comes out last among the children of the innermost open span. */
  lemma AddedInside(events: seq<Event>, e: Event, known: set<string>, stack: seq<string>, fuel: nat)
    requires Spine(events, known, stack) && Distinct(stack) && OnlyOnStack(events, e, known, stack) && !e.SpanEnd?
    requires e.SpanBegin? ==> NotYetUsed(events, e.id, known) && e.id !in stack
    ensures Emit(events + [e], known, Bucket(events + [e], known, Top(stack)), fuel)
            == Emit(events, known, Bucket(events, known, Top(stack)), fuel) + [e]
  {
    var s := Top(stack);
    var b, ev' := Bucket(events, known, s), events + [e];
    BucketOfAppend(events, e, known, s);
    FilterMember(events, ChildOf(known, s));
    forall j | 0 <= j < |stack| ensures Enclosing(stack, j) != s { NotEnclosing(stack, j); }
    ChildrenOffStack(events, known, stack, s);
    EmitOffStack(events, e, known, stack, b, fuel);
    EmitConcat(ev', known, b, [e], fuel);
    ChunkOfNew(events, e, known, fuel);
    assert Emit(ev', known, [e], fuel) == Chunk(ev', known, e, fuel) + [];
  }

  /** The added event comes out last, at every level of the stack from i inwards. */
  lemma {:induction false} AddedLast(events: seq<Event>, e: Event, known: set<string>, stack: seq<string>, i: nat, fuel: nat)
    requires Spine(events, known, stack) && Distinct(stack) && OnlyOnStack(events, e, known, stack)
    requires e.SpanEnd? ==> Top(stack) == Some(e.id)
    requires e.SpanBegin? ==> NotYetUsed(events, e.id, known) && e.id !in stack
    requires i <= |stack| && (e.SpanEnd? ==> i < |stack|) && fuel >= |stack| - i
    ensures var s := Enclosing(stack, i);
            Emit(events + [e], known, Bucket(events + [e], known, s), fuel)
            == Emit(events, known, Bucket(events, known, s), fuel) + [e]
    decreases |stack| - i
  {
    if i == |stack| {
      AddedInside(events, e, known, stack, fuel);
    } else {
      assert LastChild(events, known, stack, i);
      var b := Bucket(events, known, Enclosing(stack, i));
      SpineChunk(events, e, known, stack, i, fuel, b[|b| - 1]);
      AddedBelow(events, e, known, stack, i, fuel);
    }
  }

  /** The children of an enclosing span end with its open child, whose chunk grows; the others stay. */
  lemma AddedBelow(events: seq<Event>, e: Event, known: set<string>, stack: seq<string>, i: nat, fuel: nat)
    requires Spine(events, known, stack) && Distinct(stack) && OnlyOnStack(events, e, known, stack)
    requires i < |stack| && LastChild(events, known, stack, i)
    requires var b := Bucket(events, known, Enclosing(stack, i));
             Chunk(events + [e], known, b[|b| - 1], fuel) == Chunk(events, known, b[|b| - 1], fuel) + [e]
    ensures var s := Enclosing(stack, i);
            Emit(events + [e], known, Bucket(events + [e], known, s), fuel)
            == Emit(events, known, Bucket(events, known, s), fuel) + [e]
  {
    var s := Enclosing(stack, i);
    var b := Bucket(events, known, s);
    var n := |b| - 1;
    FilterMember(events, ChildOf(known, s));
    Siblings(events, known, stack, i);
    EmitOffStack(events, e, known, stack, b[..n], fuel);
    LastGrows(events, events + [e], known, b, fuel, e);
    SpineBucketSame(e, known, stack, i);
    BucketOfAppend(events, e, known, s);
    assert b + [] == b;
  }

  lemma LastGrows(events: seq<Event>, events': seq<Event>, known: set<string>, items: seq<Event>, fuel: nat, e: Event)
    requires items != []
    requires var n := |items| - 1;
      && Emit(events', known, items[..n], fuel) == Emit(events, known, items[..n], fuel)
      && Chunk(events', known, items[n], fuel) == Chunk(events, known, items[n], fuel) + [e]
    ensures Emit(events', known, items, fuel) == Emit(events, known, items, fuel) + [e]
  {
    EmitLast(events, known, items, fuel);
    EmitLast(events', known, items, fuel);
  }

  lemma EmitLast(events: seq<Event>, known: set<string>, items: seq<Event>, fuel: nat)
    requires items != []
    ensures var n := |items| - 1;
            Emit(events, known, items, fuel) == Emit(events, known, items[..n], fuel) + Chunk(events, known, items[n], fuel)
  {
    var n := |items| - 1;
    assert items == items[..n] + [items[n]];
    EmitConcat(events, known, items[..n], [items[n]], fuel);
    assert [items[n]][1..] == [];
    assert Emit(events, known, [items[n]], fuel) == Chunk(events, known, items[n], fuel) + [];
  }

  lemma NotEnclosing(stack: seq<string>, j: nat)
    requires Distinct(stack) && j < |stack|
    ensures Enclosing(stack, j) != Top(stack)
  {
  }

  lemma SpineBucketSame(e: Event, known: set<string>, stack: seq<string>, i: nat)
    requires Distinct(stack) && i < |stack| && OnlyOnStack([], e, known, stack)
    ensures !ChildOf(known, Enclosing(stack, i))(e)
  {
    NotEnclosing(stack, i);
  }

  /** No event names the span yet, and none ends it. */
  ghost predicate NotYetUsed(events: seq<Event>, id: string, known: set<string>) {
    Bucket(events, known, Some(id)) == [] && EndOf(events, id) == []
  }

  lemma ChunkOfNew(events: seq<Event>, e: Event, known: set<string>, fuel: nat)
    requires !e.SpanEnd?
    requires e.SpanBegin? ==> NotYetUsed(events, e.id, known) && Home(known, e) != Some(e.id)
    ensures Chunk(events + [e], known, e, fuel) == [e]
  {
    if e.SpanBegin? {
      BucketOfAppend(events, e, known, Some(e.id));
      EndOfAppend(events, e, e.id);
      assert Bucket(events + [e], known, Some(e.id)) == [];
      assert Inside(events + [e], known, e.id, fuel) == [];
    }
  }

  /** The end of the innermost open span leaves what is inside it as it was. */
  lemma {:induction false} TopUnchanged(events: seq<Event>, e: Event, known: set<string>, stack: seq<string>, fuel: nat)
    requires Spine(events, known, stack) && Distinct(stack) && OnlyOnStack(events, e, known, stack)
    requires e.SpanEnd? && stack != [] && e.id == stack[|stack| - 1] && fuel > 0
    ensures Inside(events + [e], known, e.id, fuel) == Inside(events, known, e.id, fuel)
  {
    BucketOfAppend(events, e, known, Some(e.id));
    forall j | 0 <= j < |stack| ensures Enclosing(stack, j) != Some(e.id) { NotEnclosing(stack, j); }
    ChildrenOffStack(events, known, stack, Some(e.id));
    EmitOffStack(events, e, known, stack, Bucket(events, known, Some(e.id)), fuel - 1);
    assert Bucket(events + [e], known, Some(e.id)) == Bucket(events, known, Some(e.id));
  }

  /** The chunk of the open span at level i ends with the added event. */
  lemma {:induction false} SpineChunk(events: seq<Event>, e: Event, known: set<string>, stack: seq<string>, i: nat, fuel: nat,
                                      b: Event)
    requires Spine(events, known, stack) && Distinct(stack) && OnlyOnStack(events, e, known, stack)
    requires e.SpanEnd? ==> Top(stack) == Some(e.id)
    requires e.SpanBegin? ==> NotYetUsed(events, e.id, known) && e.id !in stack
    requires i < |stack| && fuel >= |stack| - i && b.SpanBegin? && b.id == stack[i]
    ensures Chunk(events + [e], known, b, fuel) == Chunk(events, known, b, fuel) + [e]
    decreases |stack| - i, 0
  {
    var ev', id := events + [e], stack[i];
    assert LastChild(events, known, stack, i);
    assert ev'[..|events|] == events && ev'[|ev'| - 1] == e;
    if e.SpanEnd? && i == |stack| - 1 {
      TopUnchanged(events, e, known, stack, fuel);
      assert EndOf(ev', id) == [e];
      assert Chunk(events, known, b, fuel) == [b] + Inside(events, known, id, fuel);
    } else {
      assert EndOf(ev', id) == [] by { if e.SpanEnd? { assert stack[i] != stack[|stack| - 1]; } }
      AddedLast(events, e, known, stack, i + 1, fuel - 1);
      assert Enclosing(stack, i + 1) == Some(id);
      assert Inside(ev', known, id, fuel) == Inside(events, known, id, fuel) + [e];
      assert Chunk(events, known, b, fuel) == [b] + Inside(events, known, id, fuel);
    }
  }

  // ----- the whole transcript ---------------------------------------------------------------------------------

  lemma {:induction false} NestedFacts(events: seq<Event>, known: set<string>)
    requires OpenSpans(events, known).Some?
    ensures var stack := OpenSpans(events, known).value;
      && Spine(events, known, stack) && Distinct(stack) && |stack| <= |events|
      && (forall id <- stack :: Began(events, id))
      && (forall id: string :: !Began(events, id) ==> NotYetUsed(events, id, known))
      && (forall id <- stack :: id != "" && id in known)
  {
    if events != [] {
      var n := |events| - 1;
      var p, e := events[..n], events[n];
      NestedFacts(p, known);
      var old_ := OpenSpans(p, known).value;
      var stack := OpenSpans(events, known).value;
      assert events == p + [e];
      NestedStep(p, e, known, old_, stack);
    }
  }

  ghost predicate Began(events: seq<Event>, id: string) {
    exists b <- events :: b.SpanBegin? && b.id == id
  }

  lemma BeganStays(p: seq<Event>, e: Event, id: string)
    ensures Began(p + [e], id) <==> Began(p, id) || (e.SpanBegin? && e.id == id)
  {
    if Began(p, id) {
      var b :| b in p && b.SpanBegin? && b.id == id;
      assert b in p + [e];
    }
    assert e in p + [e];
  }

  lemma StackBegan(p: seq<Event>, e: Event, known: set<string>, before: seq<string>, stack: seq<string>)
    requires OpenSpans(p, known) == Some(before) && OpenSpans(p + [e], known) == Some(stack)
    requires forall id <- before :: Began(p, id) && id != "" && id in known
    ensures forall id <- stack :: Began(p + [e], id) && id != "" && id in known
    ensures forall id: string :: Began(p + [e], id) <==> Began(p, id) || (e.SpanBegin? && e.id == id)
  {
    assert (p + [e])[..|p|] == p;
    forall id: string ensures Began(p + [e], id) <==> Began(p, id) || (e.SpanBegin? && e.id == id) {
      BeganStays(p, e, id);
    }
    forall i | 0 <= i < |stack| ensures Began(p + [e], stack[i]) && stack[i] != "" && stack[i] in known {
      if i < |before| { assert stack[i] == before[i] && before[i] in before; }
    }
  }

  lemma StackStep(p: seq<Event>, e: Event, known: set<string>, before: seq<string>, stack: seq<string>, i: nat)
    requires OpenSpans(p, known) == Some(before) && OpenSpans(p + [e], known) == Some(stack)
    requires Spine(p, known, before) && Distinct(before) && i < |stack|
    requires forall id: string :: !Began(p, id) ==> NotYetUsed(p, id, known)
    ensures LastChild(p + [e], known, stack, i)
  {
    var events := p + [e];
    assert events[..|p|] == p && events[|p|] == e;
    BucketOfAppend(p, e, known, Enclosing(stack, i));
    EndOfAppend(p, e, stack[i]);
    if i < |before| {
      assert stack[i] == before[i] && Enclosing(stack, i) == Enclosing(before, i);
      assert LastChild(p, known, before, i);
      if e.SpanEnd? {
        assert before[i] != before[|before| - 1];
      } else {
        SpineBucketSame(e, known, before, i);
      }
    } else {
      assert !Began(p, stack[i]);
      assert NotYetUsed(p, stack[i], known);
    }
  }

  lemma NestedStep(p: seq<Event>, e: Event, known: set<string>, before: seq<string>, stack: seq<string>)
    requires OpenSpans(p, known) == Some(before) && OpenSpans(p + [e], known) == Some(stack)
    requires Spine(p, known, before) && Distinct(before) && |before| <= |p|
    requires forall id <- before :: Began(p, id) && id != "" && id in known
    requires forall id: string :: !Began(p, id) ==> NotYetUsed(p, id, known)
    ensures Spine(p + [e], known, stack) && Distinct(stack) && |stack| <= |p| + 1
    ensures forall id <- stack :: Began(p + [e], id) && id != "" && id in known
    ensures forall id: string :: !Began(p + [e], id) ==> NotYetUsed(p + [e], id, known)
  {
    var events := p + [e];
    assert events[..|p|] == p && events[|p|] == e;
    StackBegan(p, e, known, before, stack);
    if e.SpanBegin? { assert !Began(p, e.id); }
    forall id: string | !Began(events, id) ensures NotYetUsed(events, id, known) {
      assert !Began(p, id);
      BucketOfAppend(p, e, known, Some(id));
      EndOfAppend(p, e, id);
      assert id !in before;
    }
    assert UniqueBegins(events);
    forall i | 0 <= i < |stack| ensures LastChild(events, known, stack, i) {
      StackStep(p, e, known, before, stack, i);
    }
  }

  lemma {:induction false} PrefixRoundTrip(events: seq<Event>, known: set<string>, fuel: nat)
    requires OpenSpans(events, known).Some? && |events| <= fuel
    ensures Emit(events, known, Bucket(events, known, None), fuel) == events
  {
    if events != [] {
      var n := |events| - 1;
      var p, e := events[..n], events[n];
      assert events == p + [e];
      PrefixRoundTrip(p, known, fuel);
      NestedFacts(p, known);
      var stack := OpenSpans(p, known).value;
      if e.SpanBegin? {
        assert !Began(p, e.id);
        assert NotYetUsed(p, e.id, known);
      }
      AddedLast(p, e, known, stack, 0, fuel);
    }
  }

  lemma {:induction false} NestedUnique(events: seq<Event>, known: set<string>)
    requires OpenSpans(events, known).Some?
    ensures UniqueBegins(events)
  {
    NestedFacts(events, known);
  }

  /** `event_sequence(event_tree(events))` is the transcript itself, for every well-nested transcript. */
  lemma RoundTrip(events: seq<Event>)
    requires WellNested(events)
    ensures Flatten(TreeOf(events)) == events
  {
    NestedUnique(events, SpanIds(events));
    FlattenTree(events);
    PrefixRoundTrip(events, SpanIds(events), |events|);
  }
}
