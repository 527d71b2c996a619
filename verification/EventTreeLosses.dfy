/**
 What flattening the tree of an arbitrary transcript loses: exactly the events that stand in no chain of spans up to the
 root, and all but the last end of a span.
 */
module EventTreeLosses {
  import opened EventTree
  import opened EventTreeInterleaved
  import opened EventTreePromises
  import opened Sequences
  import opened Wrappers

  // ----- chains of spans up to the root ------------------------------------------------------------------------------

  /** The root is n spans above span id. */
  predicate Climbs(events: seq<Event>, id: string, n: nat)
    decreases n
  {
    id in SpanIds(events) &&
    match HomeOf(events, SpanIds(events), id)
    case None => n == 0
    case Some(h) => n > 0 && Climbs(events, h, n - 1)
  }

  ghost predicate Rooted(events: seq<Event>, id: string) {
    exists n: nat :: Climbs(events, id, n)
  }

  /** The span that an event stands in, or that it ends; None is the root. */
  function PlaceOf(known: set<string>, e: Event): Option<string> {
    if e.SpanEnd? then Some(e.id) else Home(known, e)
  }

  ghost predicate Reached(events: seq<Event>, e: Event) {
    match PlaceOf(SpanIds(events), e)
    case None => true
    case Some(s) => Rooted(events, s)
  }

  lemma {:induction false} OneHeight(events: seq<Event>, id: string, m: nat, n: nat)
    requires Climbs(events, id, m) && Climbs(events, id, n)
    ensures m == n
    decreases n
  {
    match HomeOf(events, SpanIds(events), id)
    case None =>
    case Some(h) => OneHeight(events, h, m - 1, n - 1);
  }

  /** The spans of a chain are all different, so a chain is not longer than there are spans. */
  lemma {:induction false} Chain(events: seq<Event>, id: string, n: nat) returns (spans: set<string>)
    requires Climbs(events, id, n)
    ensures |spans| == n + 1 && spans <= SpanIds(events)
    ensures forall x <- spans :: Within(events, x, n)
    decreases n
  {
    assert Within(events, id, n);
    match HomeOf(events, SpanIds(events), id)
    case None => spans := {id};
    case Some(h) =>
      var above := Chain(events, h, n - 1);
      if id in above {
        var m: nat :| m <= n - 1 && Climbs(events, id, m);
        OneHeight(events, id, m, n);
        assert false;
      }
      spans := above + {id};
      forall x | x in above ensures Within(events, x, n) {
        var m: nat :| m <= n - 1 && Climbs(events, x, m);
      }
  }

  /** The root is at most n spans above. */
  ghost predicate Within(events: seq<Event>, id: string, n: nat) {
    exists m: nat :: m <= n && Climbs(events, id, m)
  }

  lemma HeightBound(events: seq<Event>, id: string, n: nat)
    requires Climbs(events, id, n)
    ensures n < |SpanIds(events)| <= |events|
  {
    var spans := Chain(events, id, n);
    SubsetSize(spans, SpanIds(events));
    SpansBound(events);
  }

  /** A span is rooted when its begin event stands at the root or in a rooted span. */
  lemma BeginRooted(events: seq<Event>, b: Event)
    requires UniqueBegins(events) && b in events && b.SpanBegin?
    ensures Rooted(events, b.id) <==> Reached(events, b)
  {
    SpanIdIn(events, b);
    BeginOfIs(events, b);
    match Home(SpanIds(events), b) {
      case None => assert Climbs(events, b.id, 0);
      case Some(h) =>
        if Rooted(events, h) {
          var n: nat :| Climbs(events, h, n);
          assert Climbs(events, b.id, n + 1);
        }
        if Rooted(events, b.id) {
          var n: nat :| Climbs(events, b.id, n);
          assert Climbs(events, h, n - 1);
        }
    }
  }

  // ----- what comes out stands in a chain ------------------------------------------------------------------------------

  /** The event does not end a span that a later event ends once more. */
  predicate LastEnd(events: seq<Event>, e: Event) {
    e.SpanEnd? ==> EndOf(events, e.id) == [e]
  }

  ghost predicate Survives(events: seq<Event>, e: Event) {
    Reached(events, e) && LastEnd(events, e)
  }

  lemma {:induction false} EmitReached(events: seq<Event>, items: seq<Event>, fuel: nat)
    requires UniqueBegins(events) && forall b <- items :: b in events && Survives(events, b)
    ensures forall e <- Emit(events, SpanIds(events), items, fuel) :: Survives(events, e)
    decreases fuel, |items| + 2
  {
    if items != [] {
      assert items[0] in items;
      ChunkReached(events, items[0], fuel);
      EmitReached(events, items[1..], fuel);
    }
  }

  lemma {:induction false} ChunkReached(events: seq<Event>, b: Event, fuel: nat)
    requires UniqueBegins(events) && b in events && Survives(events, b)
    ensures forall e <- Chunk(events, SpanIds(events), b, fuel) :: Survives(events, e)
    decreases fuel, 1
  {
    if b.SpanBegin? {
      BeginRooted(events, b);
      EndIsEnd(events, b.id);
      if fuel > 0 {
        var inner := Bucket(events, SpanIds(events), Some(b.id));
        forall x | x in inner ensures x in events && Survives(events, x) {
          BucketFacts(events, SpanIds(events), Some(b.id), x);
        }
        EmitReached(events, inner, fuel - 1);
      }
    }
  }

  // ----- what stands in a chain comes out --------------------------------------------------------------------------------

  lemma {:induction false} ChunkInEmit(events: seq<Event>, known: set<string>, items: seq<Event>, b: Event, fuel: nat, e: Event)
    requires b in items && e in Chunk(events, known, b, fuel)
    ensures e in Emit(events, known, items, fuel)
  {
    if items[0] != b {
      assert b in items[1..];
      ChunkInEmit(events, known, items[1..], b, fuel, e);
    }
  }

  lemma InsideInChunk(events: seq<Event>, known: set<string>, b: Event, home: Option<string>, fuel: nat, e: Event)
    requires b.SpanBegin? && home == Some(b.id)
    requires e in Emit(events, known, Bucket(events, known, home), fuel) || e in EndOf(events, b.id)
    ensures e in Chunk(events, known, b, fuel + 1)
  {
  }

  lemma InBucket(events: seq<Event>, known: set<string>, e: Event)
    requires e in events && !e.SpanEnd?
    ensures e in Bucket(events, known, Home(known, e))
  {
    FilterMember(events, ChildOf(known, Home(known, e)));
  }

  lemma OwnChunk(events: seq<Event>, known: set<string>, e: Event, fuel: nat)
    ensures e in Chunk(events, known, e, fuel)
  {
  }

  /** An event comes out with the list of children that it stands in. */
  lemma InItsBucket(events: seq<Event>, known: set<string>, e: Event, fuel: nat)
    requires e in events && !e.SpanEnd?
    ensures e in Emit(events, known, Bucket(events, known, Home(known, e)), fuel)
  {
    InBucket(events, known, e);
    OwnChunk(events, known, e, fuel);
    ChunkInEmit(events, known, Bucket(events, known, Home(known, e)), e, fuel, e);
  }

  lemma ClimbsUp(events: seq<Event>, b: Event, n: nat)
    requires UniqueBegins(events) && b in events && b.SpanBegin? && Climbs(events, b.id, n)
    ensures match Home(SpanIds(events), b)
            case None => n == 0
            case Some(h) => n > 0 && Climbs(events, h, n - 1)
  {
    BeginOfIs(events, b);
  }

  /** What comes out in the chunk of a span comes out with the children that the span stands among. */
  lemma ChunkOneUp(events: seq<Event>, known: set<string>, b: Event, fuel: nat, e: Event)
    requires b in events && b.SpanBegin? && e in Chunk(events, known, b, fuel)
    ensures e in Emit(events, known, Bucket(events, known, Home(known, b)), fuel)
  {
    InBucket(events, known, b);
    ChunkInEmit(events, known, Bucket(events, known, Home(known, b)), b, fuel, e);
  }

  /** What is in the chunk of a rooted span comes out. */
  lemma {:induction false} ChunkComesOut(events: seq<Event>, known: set<string>, b: Event, n: nat, fuel: nat, total: nat,
                                         e: Event)
    requires known == SpanIds(events) && total == fuel + n
    requires UniqueBegins(events) && b in events && b.SpanBegin? && Climbs(events, b.id, n)
    requires e in Chunk(events, known, b, fuel)
    ensures ComesOut(events, known, total, e)
    decreases n
  {
    if n == 0 {
      AtTheRoot(events, known, b, fuel, total, e);
    } else {
      var p := ParentChunk(events, known, b, n, fuel, e);
      ChunkComesOut(events, known, p, n - 1, fuel + 1, total, e);
    }
  }

  predicate ComesOut(events: seq<Event>, known: set<string>, total: nat, e: Event) {
    e in Emit(events, known, Bucket(events, known, None), total)
  }

  lemma AtTheRoot(events: seq<Event>, known: set<string>, b: Event, fuel: nat, total: nat, e: Event)
    requires known == SpanIds(events) && total == fuel + 0
    requires UniqueBegins(events) && b in events && b.SpanBegin? && Climbs(events, b.id, 0)
    requires e in Chunk(events, known, b, fuel)
    ensures ComesOut(events, known, total, e)
  {
    ClimbsUp(events, b, 0);
    ChunkOneUp(events, known, b, fuel, e);
    assert fuel == total;
  }

  lemma ParentChunk(events: seq<Event>, known: set<string>, b: Event, n: nat, fuel: nat, e: Event) returns (p: Event)
    requires known == SpanIds(events) && n > 0
    requires UniqueBegins(events) && b in events && b.SpanBegin? && Climbs(events, b.id, n)
    requires e in Chunk(events, known, b, fuel)
    ensures p in events && p.SpanBegin? && Climbs(events, p.id, n - 1) && e in Chunk(events, known, p, fuel + 1)
  {
    ClimbsUp(events, b, n);
    p := SpanWitness(events, Home(known, b).value);
    ChunkOneUp(events, known, b, fuel, e);
    InsideInChunk(events, known, p, Home(known, b), fuel, e);
  }

  /** An event comes out in the chunk of its span. */
  lemma InItsChunk(events: seq<Event>, known: set<string>, e: Event, b: Event, fuel: nat)
    requires e in events && LastEnd(events, e)
    requires b.SpanBegin? && PlaceOf(known, e) == Some(b.id)
    ensures e in Chunk(events, known, b, fuel + 1)
  {
    if !e.SpanEnd? { InItsBucket(events, known, e, fuel); }
    InsideInChunk(events, known, b, PlaceOf(known, e), fuel, e);
  }

  lemma ReachedComesOut(events: seq<Event>, e: Event)
    requires UniqueBegins(events) && e in events && Survives(events, e)
    ensures e in Emit(events, SpanIds(events), Bucket(events, SpanIds(events), None), |events|)
  {
    match PlaceOf(SpanIds(events), e) {
      case None => InItsBucket(events, SpanIds(events), e, |events|);
      case Some(s) =>
        var n: nat :| Climbs(events, s, n);
        HeightBound(events, s, n);
        var b := SpanWitness(events, s);
        SpanComesOut(events, e, b, n, |events|);
    }
  }

  lemma SpanComesOut(events: seq<Event>, e: Event, b: Event, n: nat, total: nat)
    requires UniqueBegins(events) && e in events && LastEnd(events, e) && n < total
    requires b in events && b.SpanBegin? && PlaceOf(SpanIds(events), e) == Some(b.id) && Climbs(events, b.id, n)
    ensures e in Emit(events, SpanIds(events), Bucket(events, SpanIds(events), None), total)
  {
    var inner := total - n - 1;
    InItsChunk(events, SpanIds(events), e, b, inner);
    ChunkComesOut(events, SpanIds(events), b, n, inner + 1, total, e);
  }

  /** An event survives exactly when it stands at the root or in a chain of spans up to the root, and is not an end that a
      later one of its span overwrites. */
  lemma KeptExactly(events: seq<Event>, e: Event)
    requires UniqueBegins(events) && e in events
    ensures e in Flatten(TreeOf(events)) <==> Reached(events, e) && (e.SpanEnd? ==> EndOf(events, e.id) == [e])
  {
    var known := SpanIds(events);
    FlattenTree(events);
    if Survives(events, e) {
      ReachedComesOut(events, e);
    } else {
      forall b | b in Bucket(events, known, None) ensures b in events && Survives(events, b) {
        BucketFacts(events, known, None, b);
      }
      EmitReached(events, Bucket(events, known, None), |events|);
    }
  }

  // ----- when nothing is lost ----------------------------------------------------------------------------------------------

  ghost function HeightOf(events: seq<Event>, id: string): (n: nat)
    requires Rooted(events, id)
    ensures Climbs(events, id, n)
  {
    var n: nat :| Climbs(events, id, n);
    n
  }

  ghost predicate AllRooted(events: seq<Event>) {
    forall id <- SpanIds(events) :: Rooted(events, id)
  }

  /** The heights are levels. */
  lemma HeightsAreLevels(events: seq<Event>) returns (level: map<string, nat>)
    requires UniqueBegins(events) && AllRooted(events)
    ensures Acyclic(events, level)
  {
    level := map id | id in SpanIds(events) :: HeightOf(events, id);
    forall id | id in SpanIds(events) ensures level[id] < |SpanIds(events)| {
      HeightBound(events, id, level[id]);
    }
    forall b | b in events && b.SpanBegin?
      ensures b.id in level
      ensures var h := Home(SpanIds(events), b); h.Some? ==> level[h.value] < level[b.id]
    {
      SpanIdIn(events, b);
      BeginOfIs(events, b);
      match Home(SpanIds(events), b) {
        case None =>
        case Some(h) => OneHeight(events, h, level[h], level[b.id] - 1);
      }
    }
  }

  /** Every event comes out as often as it went in, but for the ends of unknown spans. */
  ghost predicate NothingLost(events: seq<Event>) {
    forall e :: multiset(Flatten(TreeOf(events)))[e] == if Orphan(events, e) then 0 else multiset(events)[e]
  }

  lemma {:induction false} CountedTwice(events: seq<Event>, i: nat, j: nat)
    requires i < j < |events| && events[i] == events[j]
    ensures multiset(events)[events[i]] >= 2
  {
    assert events == events[..j] + [events[j]] + events[j + 1..];
    assert events[i] in events[..j];
  }

  lemma SpansEndOnce(events: seq<Event>, level: map<string, nat>, id: string)
    requires UniqueBegins(events) && Acyclic(events, level) && NothingLost(events) && id in SpanIds(events)
    ensures EndedOnce(events, id)
  {
    forall i, j | 0 <= i < j < |events| && EndsSpan(id)(events[i]) ensures !EndsSpan(id)(events[j]) {
      if EndsSpan(id)(events[j]) {
        assert events[i] in multiset(events) && events[j] in multiset(events);
        EventsCounted(events, level, events[i]);
        EventsCounted(events, level, events[j]);
        CountedTwice(events, i, j);
        assert false;
      }
    }
  }

  /** Nothing is lost exactly when no span is its own ancestor and no span ends twice. */
  lemma NothingLostExactly(events: seq<Event>)
    requires UniqueBegins(events)
    ensures NothingLost(events) <==>
              (exists level :: Acyclic(events, level)) && forall id <- SpanIds(events) :: EndedOnce(events, id)
  {
    if NothingLost(events) {
      forall id | id in SpanIds(events) ensures Rooted(events, id) {
        var b := SpanWitness(events, id);
        assert b in multiset(events) && b in multiset(Flatten(TreeOf(events)));
        KeptExactly(events, b);
        BeginRooted(events, b);
      }
      var level := HeightsAreLevels(events);
      forall id | id in SpanIds(events) ensures EndedOnce(events, id) { SpansEndOnce(events, level, id); }
    }
    if (exists level :: Acyclic(events, level)) && forall id <- SpanIds(events) :: EndedOnce(events, id) {
      var level :| Acyclic(events, level);
      forall e ensures multiset(Flatten(TreeOf(events)))[e] == if Orphan(events, e) then 0 else multiset(events)[e] {
        EventsCounted(events, level, e);
        if e.SpanEnd? && !Orphan(events, e) { EndCounted(events, e); }
      }
    }
  }

  /** Two spans that are each other's parent are in no chain: all their events are lost. */
  lemma CyclesAreLost(a: string, b: string, x: nat, y: nat, z: nat)
    requires a != "" && b != "" && a != b
    ensures var events := [SpanBegin(a, Some(b), None, "", x), SpanBegin(b, Some(a), None, "", y), Plain(Some(a), z)];
            Flatten(TreeOf(events)) == []
  {
    var events := [SpanBegin(a, Some(b), None, "", x), SpanBegin(b, Some(a), None, "", y), Plain(Some(a), z)];
    var known := SpanIds(events);
    assert events[0] in events && events[1] in events;
    SpanIdIn(events, events[0]);
    SpanIdIn(events, events[1]);
    FilterNone(events, ChildOf(known, None));
  }
}
