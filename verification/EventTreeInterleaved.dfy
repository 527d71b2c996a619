/**
 The flattened tree of a transcript whose spans interleave arbitrarily, as long as no span is its own ancestor: where the
 children and the end of every span come out.
 */
module EventTreeInterleaved {
  import opened Sequences
  import opened Wrappers
  import opened EventTree

  predicate AtMostOneEnd(events: seq<Event>) {
    forall i, j :: 0 <= i < j < |events| && events[i].SpanEnd? && events[j].SpanEnd? ==> events[i].id != events[j].id
  }

  /** Every span lies one level or more below its parent, so that no span is its own ancestor. Levels need not exceed
      the number of spans. */
  ghost predicate Acyclic(events: seq<Event>, level: map<string, nat>) {
    var known := SpanIds(events);
    && level.Keys == known
    && (forall id <- known :: level[id] < |known|)
    && (forall e <- events :: e.SpanBegin? ==>
          e.id in level && (Home(known, e).Some? ==> level[Home(known, e).value] < level[e.id]))
  }

  /** What is looked for in the flattened transcript: the children of a span, or its end. */
  datatype Want = Kids(span: Option<string>) | Ends(id: string) {
    function Span(): Option<string> { if Kids? then span else Some(id) }
  }

  function Keep(known: set<string>, w: Want): Event -> bool {
    match w
    case Kids(s) => ChildOf(known, s)
    case Ends(id) => EndsSpan(id)
  }

  function EndsSpan(id: string): Event -> bool {
    (e: Event) => e.SpanEnd? && e.id == id
  }

  function Full(events: seq<Event>, known: set<string>, w: Want): seq<Event> {
    match w
    case Kids(s) => Bucket(events, known, s)
    case Ends(id) => EndOf(events, id)
  }

  /** A transcript with its spans and their levels, as all lemmas below take it. */
  ghost predicate Good(events: seq<Event>, known: set<string>, level: map<string, nat>) {
    known == SpanIds(events) && UniqueBegins(events) && Acyclic(events, level)
  }

  // ----- ancestors -------------------------------------------------------------------------------------------

  function HomeOf(events: seq<Event>, known: set<string>, id: string): Option<string> {
    var b := BeginOf(events, id);
    if b == [] then None else Home(known, b[0])
  }

  lemma BeginExists(events: seq<Event>, known: set<string>, level: map<string, nat>, id: string)
    requires Good(events, known, level) && id in known
    ensures |BeginOf(events, id)| == 1
    ensures var b := BeginOf(events, id)[0]; b in events && b.SpanBegin? && b.id == id
    ensures var h := HomeOf(events, known, id); h.Some? ==> h.value in known && level[h.value] < level[id]
  {
    var b := SpanWitness(events, id);
    BeginOfIs(events, b);
  }

  /** Span id lies properly below x, which may be the root. */
  ghost predicate Under(events: seq<Event>, known: set<string>, level: map<string, nat>, id: string, x: Option<string>)
    requires Good(events, known, level) && id in known
    decreases level[id]
  {
    BeginExists(events, known, level, id);
    var h := HomeOf(events, known, id);
    h == x || (h.Some? && Under(events, known, level, h.value, x))
  }

  /** The child of x on the way from x down to span id. */
  ghost function Toward(events: seq<Event>, known: set<string>, level: map<string, nat>, id: string, x: Option<string>): string
    requires Good(events, known, level) && id in known
    decreases level[id]
  {
    BeginExists(events, known, level, id);
    var h := HomeOf(events, known, id);
    if h == x || h.None? then id else Toward(events, known, level, h.value, x)
  }

  ghost predicate Reach(events: seq<Event>, known: set<string>, level: map<string, nat>, s: Option<string>, x: Option<string>)
    requires Good(events, known, level)
  {
    s == x || (s.Some? && s.value in known && Under(events, known, level, s.value, x))
  }

  lemma {:induction false} UnderLevel(events: seq<Event>, known: set<string>, level: map<string, nat>, id: string, y: string)
    requires Good(events, known, level) && id in known && y in known && Under(events, known, level, id, Some(y))
    ensures level[y] < level[id]
    decreases level[id]
  {
    BeginExists(events, known, level, id);
    var h := HomeOf(events, known, id);
    if h != Some(y) { UnderLevel(events, known, level, h.value, y); }
  }

  /** Every span lies below the root. */
  lemma {:induction false} UnderRoot(events: seq<Event>, known: set<string>, level: map<string, nat>, id: string)
    requires Good(events, known, level) && id in known
    ensures Under(events, known, level, id, None)
    decreases level[id]
  {
    BeginExists(events, known, level, id);
    var h := HomeOf(events, known, id);
    if h.Some? { UnderRoot(events, known, level, h.value); }
  }

  /** Exactly one child of x leads to a span below x. */
  lemma {:induction false} OneWay(events: seq<Event>, known: set<string>, level: map<string, nat>, t: string,
                                  x: Option<string>, b: Event)
    requires Good(events, known, level) && t in known && b in events && b.SpanBegin? && Home(known, b) == x
    requires x != Some(t)
    ensures Reach(events, known, level, Some(t), Some(b.id))
            <==> Under(events, known, level, t, x) && Toward(events, known, level, t, x) == b.id
    decreases level[t]
  {
    BeginExists(events, known, level, t);
    BeginOfIs(events, b);
    assert HomeOf(events, known, b.id) == x;
    var h := HomeOf(events, known, t);
    if t != b.id && h.Some? {
      if h == x {
        if Reach(events, known, level, h, Some(b.id)) { NotBelowOwnChild(events, known, level, h.value, b); }
      } else {
        OneWay(events, known, level, h.value, x, b);
      }
    }
  }

  lemma NotBelowOwnChild(events: seq<Event>, known: set<string>, level: map<string, nat>, p: string, b: Event)
    requires Good(events, known, level) && p in known && b in events && b.SpanBegin? && Home(known, b) == Some(p)
    ensures !Reach(events, known, level, Some(p), Some(b.id))
  {
    SpanIdIn(events, b);
    if Under(events, known, level, p, Some(b.id)) { UnderLevel(events, known, level, p, b.id); }
  }

  /** The child on the way is a child. */
  lemma {:induction false} TowardIsChild(events: seq<Event>, known: set<string>, level: map<string, nat>, t: string,
                                         x: Option<string>)
    requires Good(events, known, level) && t in known && Under(events, known, level, t, x)
    ensures var c := Toward(events, known, level, t, x); c in known && HomeOf(events, known, c) == x
    decreases level[t]
  {
    BeginExists(events, known, level, t);
    var h := HomeOf(events, known, t);
    if h != x { TowardIsChild(events, known, level, h.value, x); }
  }

  // ----- what a list of siblings contributes -------------------------------------------------------------------

  ghost function Share(events: seq<Event>, known: set<string>, level: map<string, nat>, b: Event, w: Want): seq<Event>
    requires Good(events, known, level)
  {
    (if Keep(known, w)(b) then [b] else [])
      + if b.SpanBegin? && Reach(events, known, level, w.Span(), Some(b.id)) then Full(events, known, w) else []
  }

  ghost function Shares(events: seq<Event>, known: set<string>, level: map<string, nat>, items: seq<Event>, w: Want): seq<Event>
    requires Good(events, known, level)
  {
    if items == [] then []
    else Share(events, known, level, items[0], w) + Shares(events, known, level, items[1..], w)
  }

  /** The children of x together contribute all that is wanted, once, when it lies inside x. */
  ghost predicate Within(events: seq<Event>, known: set<string>, level: map<string, nat>, x: Option<string>, w: Want)
    requires Good(events, known, level)
  {
    var s := w.Span();
    (w.Kids? && s == x) || (s.Some? && s.value in known && Under(events, known, level, s.value, x))
  }

  ghost function Inner(events: seq<Event>, known: set<string>, level: map<string, nat>, x: Option<string>, w: Want): seq<Event>
    requires Good(events, known, level)
  {
    if Within(events, known, level, x, w) then Full(events, known, w) else []
  }

  lemma {:induction false} SharesNone(events: seq<Event>, known: set<string>, level: map<string, nat>, items: seq<Event>, w: Want)
    requires Good(events, known, level)
    requires forall b <- items :: Share(events, known, level, b, w) == []
    ensures Shares(events, known, level, items, w) == []
  {
    if items != [] {
      assert items[0] in items;
      SharesNone(events, known, level, items[1..], w);
    }
  }

  lemma {:induction false} SharesAll(events: seq<Event>, known: set<string>, level: map<string, nat>, items: seq<Event>, w: Want)
    requires Good(events, known, level)
    requires forall b <- items :: Share(events, known, level, b, w) == [b]
    ensures Shares(events, known, level, items, w) == items
  {
    if items != [] {
      assert items[0] in items;
      SharesAll(events, known, level, items[1..], w);
    }
  }

  lemma {:induction false} SharesOne(events: seq<Event>, known: set<string>, level: map<string, nat>, items: seq<Event>,
                                     w: Want, k: nat)
    requires Good(events, known, level) && k < |items|
    requires forall i :: 0 <= i < |items| && i != k ==> Share(events, known, level, items[i], w) == []
    ensures Shares(events, known, level, items, w) == Share(events, known, level, items[k], w)
  {
    if k == 0 {
      forall b | b in items[1..] ensures Share(events, known, level, b, w) == [] {
        var i :| 0 <= i < |items[1..]| && items[1..][i] == b;
        assert items[i + 1] == b;
      }
      SharesNone(events, known, level, items[1..], w);
    } else {
      SharesOne(events, known, level, items[1..], w, k - 1);
    }
  }

  lemma BucketFacts(events: seq<Event>, known: set<string>, x: Option<string>, b: Event)
    requires b in Bucket(events, known, x)
    ensures b in events && !b.SpanEnd? && Home(known, b) == x
  {
    FilterMember(events, ChildOf(known, x));
  }

  /** Seen from a list that does not hold the wanted children itself, a child shares what lies below it. */
  lemma ShareBelow(events: seq<Event>, known: set<string>, level: map<string, nat>, x: Option<string>, b: Event, w: Want)
    requires Good(events, known, level) && b in Bucket(events, known, x) && !(w.Kids? && w.Span() == x)
    ensures var s := w.Span();
            Share(events, known, level, b, w)
            == if b.SpanBegin? && s.Some? && s.value in known && Under(events, known, level, s.value, x)
                  && Toward(events, known, level, s.value, x) == b.id
               then Full(events, known, w) else []
  {
    var s := w.Span();
    BucketFacts(events, known, x, b);
    if b.SpanBegin? {
      SpanIdIn(events, b);
      if s.Some? && s.value in known {
        if s == x {
          NotBelowOwnChild(events, known, level, s.value, b);
          if Under(events, known, level, s.value, x) { UnderLevel(events, known, level, s.value, s.value); }
        } else {
          OneWay(events, known, level, s.value, x, b);
        }
      }
    }
  }

  lemma BucketShares(events: seq<Event>, known: set<string>, level: map<string, nat>, x: Option<string>, w: Want)
    requires Good(events, known, level)
    ensures Shares(events, known, level, Bucket(events, known, x), w)
            == Inner(events, known, level, x, w)
  {
    var items, s := Bucket(events, known, x), w.Span();
    if w.Kids? && s == x {
      forall b | b in items ensures Share(events, known, level, b, w) == [b] {
        BucketFacts(events, known, x, b);
        if b.SpanBegin? && s.Some? { NotBelowOwnChild(events, known, level, s.value, b); }
      }
      SharesAll(events, known, level, items, w);
    } else {
      forall b | b in items
        ensures Share(events, known, level, b, w)
                == if b.SpanBegin? && s.Some? && s.value in known && Under(events, known, level, s.value, x)
                      && Toward(events, known, level, s.value, x) == b.id
                   then Full(events, known, w) else []
      {
        ShareBelow(events, known, level, x, b, w);
      }
      if Within(events, known, level, x, w) {
        var k := TowardIn(events, known, level, s.value, x);
        SharesOne(events, known, level, items, w, k);
      } else {
        SharesNone(events, known, level, items, w);
      }
    }
  }

  /** The position of the one child on the way. */
  lemma TowardIn(events: seq<Event>, known: set<string>, level: map<string, nat>, t: string, x: Option<string>) returns (k: nat)
    requires Good(events, known, level) && t in known && Under(events, known, level, t, x)
    ensures var items, c := Bucket(events, known, x), Toward(events, known, level, t, x);
      && k < |items| && items[k].SpanBegin? && items[k].id == c
      && forall i :: 0 <= i < |items| && i != k && items[i].SpanBegin? ==> items[i].id != c
  {
    var items, c := Bucket(events, known, x), Toward(events, known, level, t, x);
    TowardIsChild(events, known, level, t, x);
    BeginExists(events, known, level, c);
    var b := BeginOf(events, c)[0];
    FilterMember(events, ChildOf(known, x));
    assert b in items;
    k :| 0 <= k < |items| && items[k] == b;
    FilterUnique(events, ChildOf(known, x));
  }

  // ----- what the flattened tree contains ------------------------------------------------------------------------

  /** Deep enough to reach everything below these items. */
  ghost predicate Enough(known: set<string>, level: map<string, nat>, items: seq<Event>, fuel: nat)
  {
    forall b <- items :: b.SpanBegin? ==> b.id in level && fuel + level[b.id] >= |known|
  }

  lemma {:induction false} EmitShares(events: seq<Event>, known: set<string>, level: map<string, nat>, items: seq<Event>,
                                      fuel: nat, w: Want)
    requires Good(events, known, level) && Enough(known, level, items, fuel)
    requires forall b <- items :: b in events && !b.SpanEnd?
    ensures Filter(Emit(events, known, items, fuel), Keep(known, w)) == Shares(events, known, level, items, w)
    decreases fuel, |items| + 2
  {
    if items != [] {
      assert items[0] in items;
      EmitShares(events, known, level, items[1..], fuel, w);
      ChunkShare(events, known, level, items[0], fuel, w);
      FilterConcat(Chunk(events, known, items[0], fuel), Emit(events, known, items[1..], fuel), Keep(known, w));
    }
  }

  lemma {:induction false} ChunkShare(events: seq<Event>, known: set<string>, level: map<string, nat>, b: Event, fuel: nat, w: Want)
    requires Good(events, known, level) && b in events && !b.SpanEnd?
    requires b.SpanBegin? ==> b.id in level && fuel + level[b.id] >= |known|
    ensures Filter(Chunk(events, known, b, fuel), Keep(known, w)) == Share(events, known, level, b, w)
    decreases fuel, 1
  {
    var keep := Keep(known, w);
    FilterFirst(b, [], keep);
    assert [b] + [] == [b];
    if b.SpanBegin? {
      var inside, end := Inside(events, known, b.id, fuel), EndOf(events, b.id);
      InsideShare(events, known, level, b.id, fuel, w);
      FilterConcat([b] + inside, end, keep);
      FilterConcat([b], inside, keep);
      EndShare(events, known, b.id, w);
      assert Chunk(events, known, b, fuel) == [b] + inside + end;
      SharedOnce(events, known, level, b, w);
    }
  }

  lemma EndShare(events: seq<Event>, known: set<string>, id: string, w: Want)
    ensures Filter(EndOf(events, id), Keep(known, w)) == if w == Ends(id) then EndOf(events, id) else []
  {
    EndIsEnd(events, id);
    if EndOf(events, id) != [] {
      var e := EndOf(events, id)[0];
      assert e in EndOf(events, id);
      FilterFirst(e, [], Keep(known, w));
      assert EndOf(events, id) == [e] == [e] + [];
    }
  }

  /** What lies inside a child, and its own end, are what it shares besides itself. */
  lemma SharedOnce(events: seq<Event>, known: set<string>, level: map<string, nat>, b: Event, w: Want)
    requires Good(events, known, level) && b in events && b.SpanBegin?
    ensures Inner(events, known, level, Some(b.id), w) + (if w == Ends(b.id) then EndOf(events, b.id) else [])
            == if Reach(events, known, level, w.Span(), Some(b.id)) then Full(events, known, w) else []
  {
    SpanIdIn(events, b);
    if w == Ends(b.id) && Under(events, known, level, b.id, Some(b.id)) {
      UnderLevel(events, known, level, b.id, b.id);
    }
  }

  lemma ChildrenEnough(events: seq<Event>, known: set<string>, level: map<string, nat>, id: string, fuel: nat)
    requires Good(events, known, level) && id in known && fuel + level[id] >= |known|
    ensures fuel > 0 && Enough(known, level, Bucket(events, known, Some(id)), fuel - 1)
    ensures forall b <- Bucket(events, known, Some(id)) :: b in events && !b.SpanEnd?
  {
    forall b | b in Bucket(events, known, Some(id))
      ensures b in events && !b.SpanEnd? && (b.SpanBegin? ==> b.id in level && level[id] < level[b.id])
    {
      BucketFacts(events, known, Some(id), b);
    }
  }

  lemma {:induction false} EndIsEnd(events: seq<Event>, id: string)
    ensures |EndOf(events, id)| <= 1 && forall e <- EndOf(events, id) :: e.SpanEnd? && e.id == id && e in events
  {
    if events != [] { EndIsEnd(events[..|events| - 1], id); }
  }

  lemma {:induction false} InsideShare(events: seq<Event>, known: set<string>, level: map<string, nat>, id: string, fuel: nat, w: Want)
    requires Good(events, known, level) && id in known && fuel + level[id] >= |known|
    ensures Filter(Inside(events, known, id, fuel), Keep(known, w))
            == Inner(events, known, level, Some(id), w)
    decreases fuel, 0
  {
    ChildrenEnough(events, known, level, id, fuel);
    BucketEmits(events, known, level, Some(id), fuel - 1, w);
  }

  lemma {:induction false} BucketEmits(events: seq<Event>, known: set<string>, level: map<string, nat>, x: Option<string>,
                                       fuel: nat, w: Want)
    requires Good(events, known, level) && Enough(known, level, Bucket(events, known, x), fuel)
    requires forall b <- Bucket(events, known, x) :: b in events && !b.SpanEnd?
    ensures Filter(Emit(events, known, Bucket(events, known, x), fuel), Keep(known, w))
            == Inner(events, known, level, x, w)
    decreases fuel, |Bucket(events, known, x)| + 3
  {
    EmitShares(events, known, level, Bucket(events, known, x), fuel, w);
    BucketShares(events, known, level, x, w);
  }

  /** The flattened tree holds the children of every span, and its last end, exactly once and in transcript order. */
  lemma FlattenedHolds(events: seq<Event>, level: map<string, nat>, w: Want)
    requires UniqueBegins(events) && Acyclic(events, level)
    requires w.Span().Some? ==> w.Span().value in SpanIds(events)
    ensures Filter(Flatten(TreeOf(events)), Keep(SpanIds(events), w)) == Full(events, SpanIds(events), w)
  {
    var known := SpanIds(events);
    var items := Bucket(events, known, None);
    FlattenTree(events);
    SpansBound(events);
    forall b | b in items ensures b in events && !b.SpanEnd? { BucketFacts(events, known, None, b); }
    BucketEmits(events, known, level, None, |events|, w);
    if w.Span().Some? { UnderRoot(events, known, level, w.Span().value); }
  }

  lemma {:induction false} SpansBound(events: seq<Event>)
    ensures |SpanIds(events)| <= |events|
  {
    if events != [] { SpansBound(events[..|events| - 1]); }
  }
}
