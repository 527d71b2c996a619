/**
 What building the tree and flattening it keep of a transcript with arbitrarily interleaved spans, as long as no span is its
 own ancestor: every event but the ends of unknown spans, transcript order inside each span, and the tree itself.
 */
module EventTreePromises {
  import opened EventTree
  import opened EventTreeInterleaved
  import opened Sequences
  import opened Wrappers

  // ----- the three promises ------------------------------------------------------------------------------------------

  predicate Orphan(events: seq<Event>, e: Event) {
    e.SpanEnd? && e.id !in SpanIds(events)
  }

  /** Transcript order is kept inside each span. */
  lemma OrderKept(events: seq<Event>, level: map<string, nat>, s: Option<string>)
    requires UniqueBegins(events) && Acyclic(events, level)
    ensures Bucket(Flatten(TreeOf(events)), SpanIds(events), s) == Bucket(events, SpanIds(events), s)
  {
    var known, out := SpanIds(events), Flatten(TreeOf(events));
    if s.Some? && s.value !in known {
      FilterMember(events, ChildOf(known, s));
      FilterMember(out, ChildOf(known, s));
      assert forall e: Event :: !ChildOf(known, s)(e);
      FilterNone(events, ChildOf(known, s));
      FilterNone(out, ChildOf(known, s));
    } else {
      FlattenedHolds(events, level, Kids(s));
    }
  }

  /** No two events end this span. */
  predicate EndedOnce(events: seq<Event>, id: string) {
    forall i, j :: 0 <= i < j < |events| && EndsSpan(id)(events[i]) ==> !EndsSpan(id)(events[j])
  }

  lemma {:induction false} OneEnd(events: seq<Event>, id: string)
    requires EndedOnce(events, id)
    ensures EndOf(events, id) == Filter(events, EndsSpan(id))
  {
    if events != [] {
      var n := |events| - 1;
      assert events == events[..n] + [events[n]];
      FilterAppend(events[..n], events[n], EndsSpan(id));
      if EndsSpan(id)(events[n]) {
        FilterNone(events[..n], EndsSpan(id));
      } else {
        OneEnd(events[..n], id);
      }
    }
  }

  /** Of the end events of a span only the last one comes out, and none when the span is unknown. Every other event comes out
      as often as it went in. */
  lemma EventsCounted(events: seq<Event>, level: map<string, nat>, e: Event)
    requires UniqueBegins(events) && Acyclic(events, level)
    ensures multiset(Flatten(TreeOf(events)))[e]
            == if Orphan(events, e) then 0
               else if e.SpanEnd? then (if EndOf(events, e.id) == [e] then 1 else 0)
               else multiset(events)[e]
  {
    if Orphan(events, e) {
      OrphanDropped(events, e);
    } else if e.SpanEnd? {
      LastEndKept(events, level, e);
    } else {
      ItemKept(events, level, e);
    }
  }

  lemma OrphanDropped(events: seq<Event>, e: Event)
    requires Orphan(events, e)
    ensures multiset(Flatten(TreeOf(events)))[e] == 0
  {
    NoEndInside(events);
    GrownFrom(events, Bucket(events, SpanIds(events), None), |events|);
    assert e !in Flatten(TreeOf(events));
  }

  lemma LastEndKept(events: seq<Event>, level: map<string, nat>, e: Event)
    requires UniqueBegins(events) && Acyclic(events, level) && e.SpanEnd? && e.id in SpanIds(events)
    ensures multiset(Flatten(TreeOf(events)))[e] == if EndOf(events, e.id) == [e] then 1 else 0
  {
    FlattenedHolds(events, level, Ends(e.id));
    FilterCount(Flatten(TreeOf(events)), Keep(SpanIds(events), Ends(e.id)), e);
    CountOfEnd(events, e);
  }

  lemma CountOfEnd(events: seq<Event>, e: Event)
    requires e.SpanEnd?
    ensures multiset(EndOf(events, e.id))[e] == if EndOf(events, e.id) == [e] then 1 else 0
  {
    EndIsEnd(events, e.id);
    var ends := EndOf(events, e.id);
    assert ends == [] || ends == [ends[0]];
  }

  lemma ItemKept(events: seq<Event>, level: map<string, nat>, e: Event)
    requires UniqueBegins(events) && Acyclic(events, level) && !e.SpanEnd?
    ensures multiset(Flatten(TreeOf(events)))[e] == multiset(events)[e]
  {
    var known := SpanIds(events);
    var w := Kids(Home(known, e));
    FlattenedHolds(events, level, w);
    FilterCount(Flatten(TreeOf(events)), Keep(known, w), e);
    FilterCount(events, Keep(known, w), e);
  }

  lemma EndCounted(events: seq<Event>, e: Event)
    requires e.SpanEnd? && EndedOnce(events, e.id)
    ensures multiset(events)[e] == if EndOf(events, e.id) == [e] then 1 else 0
  {
    OneEnd(events, e.id);
    FilterCount(events, EndsSpan(e.id), e);
    CountOfEnd(events, e);
  }

  /** When no span ends twice, every event comes out as often as it went in, except the end events of unknown spans, which are
      dropped. */
  lemma EventsKept(events: seq<Event>, level: map<string, nat>, e: Event)
    requires UniqueBegins(events) && AtMostOneEnd(events) && Acyclic(events, level)
    ensures multiset(Flatten(TreeOf(events)))[e] == if Orphan(events, e) then 0 else multiset(events)[e]
  {
    EventsCounted(events, level, e);
    if e.SpanEnd? { EndCounted(events, e); }
  }

  /** No tree holds an event it was not given; ends only those of its nodes. */
  ghost predicate EndsKnown(events: seq<Event>, ts: seq<Tree>) {
    forall e <- Flatten(ts) :: !Orphan(events, e)
  }

  lemma {:induction false} GrownFrom(events: seq<Event>, items: seq<Event>, fuel: nat)
    requires forall b <- items :: !b.SpanEnd?
    ensures EndsKnown(events, Grow(NodesOf(events), items, fuel))
    decreases fuel, |items| + 2
  {
    if items != [] {
      assert items[0] in items;
      GrownFrom(events, items[1..], fuel);
      BranchFrom(events, items[0], fuel);
    }
  }

  lemma {:induction false} BranchFrom(events: seq<Event>, b: Event, fuel: nat)
    requires !b.SpanEnd?
    ensures forall e <- FlattenOne(Branch(NodesOf(events), b, fuel)) :: !Orphan(events, e)
    decreases fuel, 1
  {
    if b.SpanBegin? && b.id in NodesOf(events) {
      EndIsEnd(events, b.id);
      BeginIsBegin(events, b.id);
      if fuel > 0 {
        FilterMember(events, ChildOf(SpanIds(events), Some(b.id)));
        GrownFrom(events, Bucket(events, SpanIds(events), Some(b.id)), fuel - 1);
      }
      var t := Branch(NodesOf(events), b, fuel);
      if t.Node? {
        var inner := Flatten(t.children);
        assert EndsKnown(events, t.children);
        var end := match t.end case Some(e) => [e] case None => [];
        assert FlattenOne(t) == [t.begin] + inner + end;
        assert forall e <- end :: !Orphan(events, e);
      }
    }
  }

  lemma {:induction false} BeginIsBegin(events: seq<Event>, id: string)
    ensures |BeginOf(events, id)| <= 1 && forall e <- BeginOf(events, id) :: e.SpanBegin? && e.id == id
  {
    if events != [] { BeginIsBegin(events[..|events| - 1], id); }
  }

  lemma NoEndInside(events: seq<Event>)
    ensures forall b <- Bucket(events, SpanIds(events), None) :: !b.SpanEnd?
  {
    FilterMember(events, ChildOf(SpanIds(events), None));
  }

  lemma {:induction false} EndOfFilter(xs: seq<Event>, id: string)
    ensures EndOf(xs, id) == (var f := Filter(xs, EndsSpan(id)); if f == [] then [] else [f[|f| - 1]])
  {
    if xs != [] {
      var n := |xs| - 1;
      assert xs == xs[..n] + [xs[n]];
      FilterAppend(xs[..n], xs[n], EndsSpan(id));
      EndOfFilter(xs[..n], id);
    }
  }

  /** Beyond the number of spans, depth makes no difference. */
  lemma {:induction false} GrowDeeper(events: seq<Event>, known: set<string>, level: map<string, nat>, items: seq<Event>,
                                      f: nat, g: nat)
    requires Good(events, known, level) && Enough(known, level, items, f) && Enough(known, level, items, g)
    requires forall b <- items :: b in events
    ensures Grow(NodesOf(events), items, f) == Grow(NodesOf(events), items, g)
    decreases f, |items| + 2
  {
    if items != [] {
      assert items[0] in items;
      GrowDeeper(events, known, level, items[1..], f, g);
      BranchDeeper(events, known, level, items[0], f, g);
    }
  }

  lemma {:induction false} BranchDeeper(events: seq<Event>, known: set<string>, level: map<string, nat>, b: Event,
                                        f: nat, g: nat)
    requires Good(events, known, level) && b in events
    requires b.SpanBegin? ==> b.id in level && f + level[b.id] >= |known| && g + level[b.id] >= |known|
    ensures Branch(NodesOf(events), b, f) == Branch(NodesOf(events), b, g)
    decreases f, 1
  {
    if b.SpanBegin? {
      ChildrenDeeper(events, known, level, b, f, g);
      SameBranch(events, b, f, g);
    } else {
      PlainBranch(events, b, f);
      PlainBranch(events, b, g);
    }
  }

  lemma {:induction false} ChildrenDeeper(events: seq<Event>, known: set<string>, level: map<string, nat>, b: Event,
                                          f: nat, g: nat)
    requires Good(events, known, level) && b in events && b.SpanBegin?
    requires b.id in level && f + level[b.id] >= |known| && g + level[b.id] >= |known|
    ensures f > 0 && g > 0
    ensures var inner := Bucket(events, known, Some(b.id));
            Grow(NodesOf(events), inner, f - 1) == Grow(NodesOf(events), inner, g - 1)
    decreases f, 0
  {
    ChildrenEnough(events, known, level, b.id, f);
    ChildrenEnough(events, known, level, b.id, g);
    GrowDeeper(events, known, level, Bucket(events, known, Some(b.id)), f - 1, g - 1);
  }

  lemma SameBranch(events: seq<Event>, b: Event, f: nat, g: nat)
    requires UniqueBegins(events) && b in events && b.SpanBegin? && f > 0 && g > 0
    requires var inner := Bucket(events, SpanIds(events), Some(b.id));
             Grow(NodesOf(events), inner, f - 1) == Grow(NodesOf(events), inner, g - 1)
    ensures Branch(NodesOf(events), b, f) == Branch(NodesOf(events), b, g)
  {
    BranchIs(events, b, f);
    BranchIs(events, b, g);
  }

  lemma MembersKept(events: seq<Event>, level: map<string, nat>, e: Event)
    requires UniqueBegins(events) && AtMostOneEnd(events) && Acyclic(events, level)
    ensures e in Flatten(TreeOf(events)) <==> e in events && !Orphan(events, e)
  {
    EventsKept(events, level, e);
    assert e in Flatten(TreeOf(events)) <==> multiset(Flatten(TreeOf(events)))[e] > 0;
    assert e in events <==> multiset(events)[e] > 0;
  }

  lemma SpansKept(events: seq<Event>, level: map<string, nat>)
    requires UniqueBegins(events) && AtMostOneEnd(events) && Acyclic(events, level)
    ensures SpanIds(Flatten(TreeOf(events))) == SpanIds(events)
  {
    var out := Flatten(TreeOf(events));
    forall id ensures id in SpanIds(out) <==> id in SpanIds(events) {
      if id in SpanIds(out) {
        var b := SpanWitness(out, id);
        MembersKept(events, level, b);
        SpanIdIn(events, b);
      }
      if id in SpanIds(events) {
        var b := SpanWitness(events, id);
        MembersKept(events, level, b);
        SpanIdIn(out, b);
      }
    }
  }

  lemma BeginsStayUnique(events: seq<Event>, level: map<string, nat>)
    requires UniqueBegins(events) && AtMostOneEnd(events) && Acyclic(events, level)
    ensures UniqueBegins(Flatten(TreeOf(events)))
  {
    var out := Flatten(TreeOf(events));
    forall i, j | 0 <= i < j < |out| && out[i].SpanBegin? && out[j].SpanBegin? ensures out[i].id != out[j].id {
      MembersKept(events, level, out[i]);
      MembersKept(events, level, out[j]);
      if out[i].id == out[j].id {
        SameBegin(events, out[i], out[j]);
        TwiceCounts(out, i, j);
        EventsKept(events, level, out[i]);
        OnceCounts(events, out[i]);
        assert false;
      }
    }
  }

  lemma BeginKept(events: seq<Event>, level: map<string, nat>, id: string)
    requires UniqueBegins(events) && AtMostOneEnd(events) && Acyclic(events, level) && id in SpanIds(events)
    ensures BeginOf(Flatten(TreeOf(events)), id) == BeginOf(events, id)
  {
    var b := SpanWitness(events, id);
    BeginsStayUnique(events, level);
    MembersKept(events, level, b);
    BeginOfIs(events, b);
    BeginOfIs(Flatten(TreeOf(events)), b);
  }

  lemma TwiceCounts(xs: seq<Event>, i: nat, j: nat)
    requires i < j < |xs| && xs[i] == xs[j]
    ensures multiset(xs)[xs[i]] >= 2
  {
    assert xs == xs[..j] + [xs[j]] + xs[j + 1..];
    assert xs[..j][i] == xs[i];
    assert xs[i] in multiset(xs[..j]);
  }

  lemma {:induction false} OnceCounts(events: seq<Event>, b: Event)
    requires UniqueBegins(events) && b.SpanBegin?
    ensures multiset(events)[b] <= 1
  {
    if events != [] {
      assert events == [events[0]] + events[1..];
      OnceCounts(events[1..], b);
      if events[0] == b {
        forall k | 0 <= k < |events[1..]| ensures events[1..][k] != b { assert events[k + 1] != events[0]; }
        assert b !in events[1..];
      }
    }
  }

  lemma NodesKept(events: seq<Event>, level: map<string, nat>)
    requires UniqueBegins(events) && AtMostOneEnd(events) && Acyclic(events, level)
    ensures NodesOf(Flatten(TreeOf(events))) == NodesOf(events)
  {
    var out := Flatten(TreeOf(events));
    SpansKept(events, level);
    forall id | id in SpanIds(events)
      ensures BeginOf(out, id) == BeginOf(events, id)
      ensures EndOf(out, id) == EndOf(events, id)
      ensures Bucket(out, SpanIds(events), Some(id)) == Bucket(events, SpanIds(events), Some(id))
    {
      NodeKept(events, level, id);
    }
  }

  lemma NodeKept(events: seq<Event>, level: map<string, nat>, id: string)
    requires UniqueBegins(events) && AtMostOneEnd(events) && Acyclic(events, level) && id in SpanIds(events)
    ensures BeginOf(Flatten(TreeOf(events)), id) == BeginOf(events, id)
    ensures EndOf(Flatten(TreeOf(events)), id) == EndOf(events, id)
    ensures Bucket(Flatten(TreeOf(events)), SpanIds(events), Some(id)) == Bucket(events, SpanIds(events), Some(id))
  {
    BeginKept(events, level, id);
    OrderKept(events, level, Some(id));
    EndKept(events, level, id);
  }

  lemma EndKept(events: seq<Event>, level: map<string, nat>, id: string)
    requires UniqueBegins(events) && Acyclic(events, level) && id in SpanIds(events)
    ensures EndOf(Flatten(TreeOf(events)), id) == EndOf(events, id)
  {
    FlattenedHolds(events, level, Ends(id));
    EndIsEnd(events, id);
    EndFromFilter(Flatten(TreeOf(events)), id, EndOf(events, id), Keep(SpanIds(events), Ends(id)));
  }

  lemma EndFromFilter(xs: seq<Event>, id: string, end: seq<Event>, keep: Event -> bool)
    requires keep == EndsSpan(id) && Filter(xs, keep) == end && |end| <= 1
    ensures EndOf(xs, id) == end
  {
    EndOfFilter(xs, id);
  }

  /** Building the tree of the flattened transcript gives the same tree again. */
  lemma Idempotent(events: seq<Event>, level: map<string, nat>)
    requires UniqueBegins(events) && AtMostOneEnd(events) && Acyclic(events, level)
    ensures TreeOf(Flatten(TreeOf(events))) == TreeOf(events)
  {
    var known, out := SpanIds(events), Flatten(TreeOf(events));
    var roots := Bucket(events, known, None);
    SpansKept(events, level);
    NodesKept(events, level);
    OrderKept(events, level, None);
    SpansBound(events);
    SpansBound(out);
    forall b | b in roots ensures b in events { BucketFacts(events, known, None, b); }
    GrowDeeper(events, known, level, roots, |events|, |out|);
  }
}
