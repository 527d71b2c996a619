/** The tree of spans of a transcript, and its flattening. */
module EventTree {
  import opened Sequences
  import opened Wrappers

  /** uid stands for all that the tree code does not look at. */
  datatype Event =
    | SpanBegin(id: string, parent: Option<string>, typ: Option<string>, name: string, uid: nat)
    | SpanEnd(id: string, uid: nat)
    | Plain(span: Option<string>, uid: nat)

  datatype Tree =
    | Leaf(event: Event)
    | Node(id: string, parentId: Option<string>, typ: Option<string>, name: string,
           begin: Event, end: Option<Event>, children: seq<Tree>)

  // ----- where an event goes ---------------------------------------------------------------------------

  /** The ids of the spans that begin in the transcript. */
  function SpanIds(events: seq<Event>): set<string> {
    if events == [] then {}
    else
      var e := events[|events| - 1];
      SpanIds(events[..|events| - 1]) + if e.SpanBegin? then {e.id} else {}
  }

  lemma {:induction false} SpanIdIn(events: seq<Event>, e: Event)
    requires e in events && e.SpanBegin?
    ensures e.id in SpanIds(events)
  {
    var n := |events| - 1;
    assert events == events[..n] + [events[n]];
    if events[n] != e { SpanIdIn(events[..n], e); }
  }

  lemma {:induction false} SpanWitness(events: seq<Event>, id: string) returns (e: Event)
    requires id in SpanIds(events)
    ensures e in events && e.SpanBegin? && e.id == id
  {
    var n := |events| - 1;
    e := events[n];
    if !(e.SpanBegin? && e.id == id) { e := SpanWitness(events[..n], id); }
  }

  /** The span whose children an event joins; None is the root level. An empty id counts as none. */
  function Home(known: set<string>, e: Event): Option<string> {
    var s := match e case SpanBegin(_, parent, _, _, _) => parent case Plain(span, _) => span case SpanEnd(_, _) => None;
    if s.Some? && s.value != "" && s.value in known then s else None
  }

  /** An event joins a span exactly when it names it, by a name that is not empty, and the span begins somewhere. */
  lemma HomeIs(known: set<string>, e: Event, s: string)
    ensures Home(known, e) == Some(s) <==>
      s != "" && s in known && ((e.SpanBegin? && e.parent == Some(s)) || (e.Plain? && e.span == Some(s)))
  {
  }

  function ChildOf(known: set<string>, s: Option<string>): Event -> bool {
    (e: Event) => !e.SpanEnd? && Home(known, e) == s
  }

  /** The events directly inside a span, in transcript order. */
  function Bucket(events: seq<Event>, known: set<string>, s: Option<string>): seq<Event> {
    Filter(events, ChildOf(known, s))
  }

  /** The last end event of a span, as a list of none or one. */
  function EndOf(events: seq<Event>, id: string): seq<Event> {
    if events == [] then []
    else
      var e := events[|events| - 1];
      if e.SpanEnd? && e.id == id then [e] else EndOf(events[..|events| - 1], id)
  }

  /** The last begin event of a span, as a list of none or one. */
  function BeginOf(events: seq<Event>, id: string): seq<Event> {
    if events == [] then []
    else
      var e := events[|events| - 1];
      if e.SpanBegin? && e.id == id then [e] else BeginOf(events[..|events| - 1], id)
  }

  /** A span with several begin events has the last of them. */
  lemma {:induction false} BeginIsLast(events: seq<Event>, id: string) returns (i: nat)
    requires exists e <- events :: e.SpanBegin? && e.id == id
    ensures i < |events| && events[i].SpanBegin? && events[i].id == id && BeginOf(events, id) == [events[i]]
    ensures forall j :: i < j < |events| && events[j].SpanBegin? ==> events[j].id != id
  {
    var n := |events| - 1;
    if events[n].SpanBegin? && events[n].id == id {
      i := n;
    } else {
      var e :| e in events && e.SpanBegin? && e.id == id;
      assert e in events[..n];
      i := BeginIsLast(events[..n], id);
    }
  }

  // ----- building ----------------------------------------------------------------------------------------

  /** A span node: its begin event, its end event if any, and what was appended to its children. A begin event in a
      list of children stands for the node with that id. */
  datatype Span = Span(begin: seq<Event>, end: seq<Event>, children: seq<Event>)

  function NodesOf(events: seq<Event>): map<string, Span> {
    map id | id in SpanIds(events) ::
      Span(BeginOf(events, id), EndOf(events, id), Bucket(events, SpanIds(events), Some(id)))
  }

  /** The trees reached from a list of children, to a depth of fuel. */
  function Grow(nodes: map<string, Span>, items: seq<Event>, fuel: nat): seq<Tree>
    decreases fuel, |items|
  {
    if items == [] then [] else [Branch(nodes, items[0], fuel)] + Grow(nodes, items[1..], fuel)
  }

  function Branch(nodes: map<string, Span>, e: Event, fuel: nat): Tree
    decreases fuel, 0
  {
    if e.SpanBegin? && e.id in nodes && nodes[e.id].begin != [] && nodes[e.id].begin[0].SpanBegin? then
      var n := nodes[e.id];
      var b := n.begin[0];
      Node(e.id, b.parent, b.typ, b.name, b, EndOption(n.end),
           if fuel == 0 then [] else Grow(nodes, n.children, fuel - 1))
    else Leaf(e)
  }

  /** `event_tree`. No chain of spans is longer than the transcript. */
  function TreeOf(events: seq<Event>): seq<Tree> {
    Grow(NodesOf(events), Bucket(events, SpanIds(events), None), |events|)
  }

  /** The nodes and roots once the first k events have been attached. */
  ghost predicate AttachedUpTo(nodes: map<string, Span>, roots: seq<Event>, events: seq<Event>, k: nat)
    requires k <= |events|
  {
    && nodes.Keys == SpanIds(events)
    && roots == Bucket(events[..k], SpanIds(events), None)
    && forall id <- nodes :: nodes[id] == SpanUpTo(events, k, id)
  }

  ghost function SpanUpTo(events: seq<Event>, k: nat, id: string): Span
    requires k <= |events|
  {
    Span(BeginOf(events, id), EndOf(events[..k], id), Bucket(events[..k], SpanIds(events), Some(id)))
  }

  class Forest {
    var nodes: map<string, Span>
    var roots: seq<Event>

    /** `event_tree`: one node for each span first, then one pass over the events. */
    constructor (events: seq<Event>)
      ensures nodes == NodesOf(events)
      ensures roots == Bucket(events, SpanIds(events), None)
    {
      nodes := map[];
      roots := [];
      new;
      CreateNodes(events);
      for i := 0 to |events|
        invariant AttachedUpTo(nodes, roots, events, i)
      {
        Attach(events, i);
      }
      assert events[..|events|] == events;
    }

    method CreateNodes(events: seq<Event>)
      requires nodes == map[] && roots == []
      modifies this
      ensures AttachedUpTo(nodes, roots, events, 0)
    {
      for i := 0 to |events|
        invariant roots == []
        invariant nodes.Keys == SpanIds(events[..i])
        invariant forall id <- nodes :: nodes[id] == Span(BeginOf(events[..i], id), [], [])
      {
        var ev := events[i];
        assert events[..i + 1] == events[..i] + [ev] && events[..i + 1][..i] == events[..i];
        if ev.SpanBegin? {
          nodes := nodes[ev.id := Span([ev], [], [])];
        }
      }
      assert events[..|events|] == events;
    }

    method Attach(events: seq<Event>, i: nat)
      requires i < |events| && AttachedUpTo(nodes, roots, events, i)
      modifies this
      ensures AttachedUpTo(nodes, roots, events, i + 1)
    {
      var ev := events[i];
      if ev.SpanEnd? {
        EndAttached(nodes, roots, events, i);
        if ev.id in nodes {
          nodes := nodes[ev.id := nodes[ev.id].(end := [ev])];
        }
      } else {
        ChildAttached(nodes, roots, events, i);
        var s := if ev.SpanBegin? then ev.parent else ev.span;
        if s.Some? && s.value != "" && s.value in nodes {
          nodes := nodes[s.value := nodes[s.value].(children := nodes[s.value].children + [ev])];
        } else {
          roots := roots + [ev];
        }
      }
    }
  }

  lemma EndAttached(nodes: map<string, Span>, roots: seq<Event>, events: seq<Event>, i: nat)
    requires i < |events| && AttachedUpTo(nodes, roots, events, i) && events[i].SpanEnd?
    ensures var ev := events[i];
      AttachedUpTo(if ev.id in nodes then nodes[ev.id := nodes[ev.id].(end := [ev])] else nodes, roots, events, i + 1)
  {
    var ev := events[i];
    BucketUpTo(events, i, SpanIds(events), None);
    var nodes' := if ev.id in nodes then nodes[ev.id := nodes[ev.id].(end := [ev])] else nodes;
    forall id | id in nodes' ensures nodes'[id] == SpanUpTo(events, i + 1, id) {
      assert nodes[id] == SpanUpTo(events, i, id);
      BucketUpTo(events, i, SpanIds(events), Some(id));
      EndUpTo(events, i, id);
    }
  }

  lemma ChildAttached(nodes: map<string, Span>, roots: seq<Event>, events: seq<Event>, i: nat)
    requires i < |events| && AttachedUpTo(nodes, roots, events, i) && !events[i].SpanEnd?
    ensures var ev := events[i];
      match Home(SpanIds(events), ev)
      case Some(s) =>
        AttachedUpTo(nodes[s := nodes[s].(children := nodes[s].children + [ev])], roots, events, i + 1)
      case None => AttachedUpTo(nodes, roots + [ev], events, i + 1)
  {
    var ev := events[i];
    BucketUpTo(events, i, SpanIds(events), None);
    forall id | id in nodes
      ensures SpanUpTo(events, i + 1, id) == WithEvent(nodes[id], id, Home(SpanIds(events), ev), ev)
    {
      assert nodes[id] == SpanUpTo(events, i, id);
      SpanWithEvent(events, i, id);
    }
  }

  ghost function WithEvent(s: Span, id: string, home: Option<string>, e: Event): Span {
    if home == Some(id) then s.(children := s.children + [e]) else s
  }

  lemma SpanWithEvent(events: seq<Event>, i: nat, id: string)
    requires i < |events| && !events[i].SpanEnd?
    ensures SpanUpTo(events, i + 1, id)
            == WithEvent(SpanUpTo(events, i, id), id, Home(SpanIds(events), events[i]), events[i])
  {
    BucketUpTo(events, i, SpanIds(events), Some(id));
    EndUpTo(events, i, id);
  }

  lemma BucketUpTo(events: seq<Event>, i: nat, known: set<string>, s: Option<string>)
    requires i < |events|
    ensures Bucket(events[..i + 1], known, s)
            == Bucket(events[..i], known, s) + if ChildOf(known, s)(events[i]) then [events[i]] else []
  {
    assert events[..i + 1] == events[..i] + [events[i]];
    BucketOfAppend(events[..i], events[i], known, s);
  }

  lemma EndUpTo(events: seq<Event>, i: nat, id: string)
    requires i < |events|
    ensures EndOf(events[..i + 1], id)
            == if events[i].SpanEnd? && events[i].id == id then [events[i]] else EndOf(events[..i], id)
  {
    assert events[..i + 1] == events[..i] + [events[i]];
    EndOfAppend(events[..i], events[i], id);
  }

  lemma BucketOfAppend(p: seq<Event>, e: Event, known: set<string>, s: Option<string>)
    ensures Bucket(p + [e], known, s) == Bucket(p, known, s) + if ChildOf(known, s)(e) then [e] else []
  {
    FilterAppend(p, e, ChildOf(known, s));
  }

  lemma EndOfAppend(p: seq<Event>, e: Event, id: string)
    ensures EndOf(p + [e], id) == if e.SpanEnd? && e.id == id then [e] else EndOf(p, id)
  {
    assert (p + [e])[..|p|] == p;
  }

  // ----- flattening --------------------------------------------------------------------------------------

  /** `event_sequence`. */
  function Flatten(ts: seq<Tree>): seq<Event> {
    if ts == [] then [] else FlattenOne(ts[0]) + Flatten(ts[1..])
  }

  function FlattenOne(t: Tree): seq<Event> {
    match t
    case Leaf(e) => [e]
    case Node(_, _, _, _, b, end, children) =>
      [b] + Flatten(children) + match end case Some(e) => [e] case None => []
  }

  /** `walk_node_spans`: the nodes, each before its descendants. */
  function Walk(ts: seq<Tree>): seq<Tree> {
    if ts == [] then []
    else (match ts[0] case Leaf(_) => [] case Node(_, _, _, _, _, _, children) => [ts[0]] + Walk(children)) + Walk(ts[1..])
  }

  // ----- the events in the order of the flattened tree ------------------------------------------------------

  /** The children of a span in flattened order, straight from the transcript. */
  function Emit(events: seq<Event>, known: set<string>, items: seq<Event>, fuel: nat): seq<Event>
    decreases fuel, |items| + 2
  {
    if items == [] then [] else Chunk(events, known, items[0], fuel) + Emit(events, known, items[1..], fuel)
  }

  function Chunk(events: seq<Event>, known: set<string>, e: Event, fuel: nat): seq<Event>
    decreases fuel, 1
  {
    if e.SpanBegin? then
      [e] + (if fuel == 0 then [] else Emit(events, known, Bucket(events, known, Some(e.id)), fuel - 1)) + EndOf(events, e.id)
    else [e]
  }

  /** What a span emits between its begin and its end. */
  function Inside(events: seq<Event>, known: set<string>, id: string, fuel: nat): seq<Event> {
    if fuel == 0 then [] else Emit(events, known, Bucket(events, known, Some(id)), fuel - 1)
  }

  predicate UniqueBegins(events: seq<Event>) {
    forall i, j :: 0 <= i < j < |events| && events[i].SpanBegin? && events[j].SpanBegin? ==> events[i].id != events[j].id
  }

  lemma {:induction false} FilterUnique(events: seq<Event>, keep: Event -> bool)
    requires UniqueBegins(events)
    ensures UniqueBegins(Filter(events, keep))
  {
    if events != [] {
      var rest := events[1..];
      FilterUnique(rest, keep);
      FilterMember(rest, keep);
      var b := Filter(rest, keep);
      if keep(events[0]) {
        assert Filter(events, keep) == [events[0]] + b;
        forall j | 0 <= j < |b| && b[j].SpanBegin? && events[0].SpanBegin? ensures b[j].id != events[0].id {
          assert b[j] in rest;
          var k :| 0 <= k < |rest| && rest[k] == b[j];
          assert events[k + 1] == b[j];
        }
      } else {
        assert Filter(events, keep) == b;
      }
    }
  }

  lemma SameBegin(events: seq<Event>, a: Event, b: Event)
    requires UniqueBegins(events) && a in events && b in events && a.SpanBegin? && b.SpanBegin? && a.id == b.id
    ensures a == b
  {
  }

  lemma {:induction false} BeginOfIs(events: seq<Event>, e: Event)
    requires UniqueBegins(events) && e in events && e.SpanBegin?
    ensures BeginOf(events, e.id) == [e]
  {
    var n := |events| - 1;
    if events[n] != e {
      assert events == events[..n] + [events[n]];
      BeginOfIs(events[..n], e);
    }
  }

  function EndOption(end: seq<Event>): Option<Event> {
    if end == [] then None else Some(end[0])
  }

  /** The node that stands for a begin event of the transcript. */
  lemma BranchIs(events: seq<Event>, b: Event, fuel: nat)
    requires UniqueBegins(events) && b in events && b.SpanBegin?
    ensures Branch(NodesOf(events), b, fuel)
            == Node(b.id, b.parent, b.typ, b.name, b, EndOption(EndOf(events, b.id)),
                    if fuel == 0 then [] else Grow(NodesOf(events), Bucket(events, SpanIds(events), Some(b.id)), fuel - 1))
  {
    BeginOfIs(events, b);
    SpanIdIn(events, b);
  }

  /** Flattening the tree emits the events of the transcript bucket by bucket. */
  lemma {:induction false} FlattenGrow(events: seq<Event>, items: seq<Event>, fuel: nat)
    requires UniqueBegins(events) && forall e <- items :: e in events
    ensures Flatten(Grow(NodesOf(events), items, fuel)) == Emit(events, SpanIds(events), items, fuel)
    decreases fuel, |items| + 2
  {
    if items != [] {
      assert items[0] in events;
      FlattenGrow(events, items[1..], fuel);
      FlattenBranch(events, items[0], fuel);
    }
  }

  lemma {:induction false} FlattenBranch(events: seq<Event>, e: Event, fuel: nat)
    requires UniqueBegins(events) && e in events
    ensures FlattenOne(Branch(NodesOf(events), e, fuel)) == Chunk(events, SpanIds(events), e, fuel)
    decreases fuel, 1
  {
    if e.SpanBegin? {
      ChildrenFlattened(events, e, fuel);
      NodeFlattened(events, e, fuel);
    } else {
      PlainBranch(events, e, fuel);
    }
  }

  lemma {:induction false} ChildrenFlattened(events: seq<Event>, e: Event, fuel: nat)
    requires UniqueBegins(events) && e.SpanBegin?
    ensures var inner := Bucket(events, SpanIds(events), Some(e.id));
            fuel > 0 ==> Flatten(Grow(NodesOf(events), inner, fuel - 1)) == Emit(events, SpanIds(events), inner, fuel - 1)
    decreases fuel, 0
  {
    if fuel > 0 {
      FilterMember(events, ChildOf(SpanIds(events), Some(e.id)));
      FlattenGrow(events, Bucket(events, SpanIds(events), Some(e.id)), fuel - 1);
    }
  }

  lemma PlainBranch(events: seq<Event>, b: Event, fuel: nat)
    requires !b.SpanBegin?
    ensures Branch(NodesOf(events), b, fuel) == Leaf(b)
  {
  }

  lemma NodeFlattened(events: seq<Event>, e: Event, fuel: nat)
    requires UniqueBegins(events) && e in events && e.SpanBegin?
    requires var inner := Bucket(events, SpanIds(events), Some(e.id));
             fuel > 0 ==> Flatten(Grow(NodesOf(events), inner, fuel - 1)) == Emit(events, SpanIds(events), inner, fuel - 1)
    ensures FlattenOne(Branch(NodesOf(events), e, fuel)) == Chunk(events, SpanIds(events), e, fuel)
  {
    BranchIs(events, e, fuel);
    EndIsOne(events, e.id);
    var t, end := Branch(NodesOf(events), e, fuel), EndOf(events, e.id);
    assert (match t.end case Some(x) => [x] case None => []) == end;
    assert FlattenOne(t) == [e] + Flatten(t.children) + end;
  }

  lemma {:induction false} EndIsOne(events: seq<Event>, id: string)
    ensures |EndOf(events, id)| <= 1
  {
    if events != [] { EndIsOne(events[..|events| - 1], id); }
  }

  lemma FlattenTree(events: seq<Event>)
    requires UniqueBegins(events)
    ensures Flatten(TreeOf(events))
            == Emit(events, SpanIds(events), Bucket(events, SpanIds(events), None), |events|)
  {
    FilterMember(events, ChildOf(SpanIds(events), None));
    FlattenGrow(events, Bucket(events, SpanIds(events), None), |events|);
  }

  lemma {:induction false} EmitConcat(events: seq<Event>, known: set<string>, a: seq<Event>, b: seq<Event>, fuel: nat)
    ensures Emit(events, known, a + b, fuel) == Emit(events, known, a, fuel) + Emit(events, known, b, fuel)
    decreases a
  {
    if a == [] {
      assert a + b == b;
    } else {
      assert (a + b)[1..] == a[1..] + b;
      EmitConcat(events, known, a[1..], b, fuel);
    }
  }
}
