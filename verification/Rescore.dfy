/** Putting the events and scores of a second scoring into a sample that has been scored before. */
module Rescore {
  import opened Sequences
  import opened Wrappers
  import opened EventTree
  import opened EventTreeRoundTrip
  import Decimal

  datatype Action = Append | Overwrite

  /** Failures of the unpacking and of the assertions of the code. */
  datatype Error = NotOneTree | NotASpan | ParentMissing | NotAmongSiblings

  // ----- finding and replacing nodes -------------------------------------------------------------------------

  predicate IsScorers(t: Tree) {
    t.Node? && t.typ == Some("scorers") && t.name == "scorers"
  }

  /** The last scorers span in walking order. */
  function LastScorers(nodes: seq<Tree>): Option<Tree> {
    if nodes == [] then None
    else if IsScorers(nodes[|nodes| - 1]) then Some(nodes[|nodes| - 1])
    else LastScorers(nodes[..|nodes| - 1])
  }

  /** The first node with this id in walking order. */
  function NodeOf(ts: seq<Tree>, id: string): Option<Tree> {
    if ts == [] then None
    else match NodeIn(ts[0], id)
         case Some(n) => Some(n)
         case None => NodeOf(ts[1..], id)
  }

  function NodeIn(t: Tree, id: string): Option<Tree> {
    match t
    case Leaf(_) => None
    case Node(i, _, _, _, _, _, children) => if i == id then Some(t) else NodeOf(children, id)
  }

  /** The forest with that node exchanged for another. */
  function Exchange(ts: seq<Tree>, id: string, new_: Tree): seq<Tree> {
    if ts == [] then []
    else if NodeIn(ts[0], id).Some? then [ExchangeIn(ts[0], id, new_)] + ts[1..]
    else [ts[0]] + Exchange(ts[1..], id, new_)
  }

  function ExchangeIn(t: Tree, id: string, new_: Tree): Tree {
    match t
    case Leaf(_) => t
    case Node(i, _, _, _, _, _, children) => if i == id then new_ else t.(children := Exchange(children, id, new_))
  }

  function IndexOf(ts: seq<Tree>, t: Tree): Option<nat> {
    if ts == [] then None
    else if ts[0] == t then Some(0)
    else match IndexOf(ts[1..], t) case Some(i) => Some(i + 1) case None => None
  }

  function Reparented(ts: seq<Tree>, parent: string): seq<Tree> {
    seq(|ts|, i requires 0 <= i < |ts| => if ts[i].Node? then ts[i].(parentId := Some(parent)) else ts[i])
  }

  // ----- _get_updated_events -----------------------------------------------------------------------------------

  /** The tree after the edit. */
  function Edited(tree: seq<Tree>, f: Tree, n: Tree, action: Action): Result<seq<Tree>, Error>
    requires f.Node? && n.Node?
  {
    match action
    case Append => Success(Exchange(tree, f.id, f.(children := f.children + Reparented(n.children, f.id))))
    case Overwrite =>
      var n' := n.(parentId := f.parentId);
      match f.parentId
      case None =>
        (match IndexOf(tree, f)
         case Some(i) => IndexInRange(tree, f); Success(tree[i := n'])
         case None => Failure(NotAmongSiblings))
      case Some(p) =>
        match NodeOf(tree, p)
        case None => Failure(ParentMissing)
        case Some(parent) =>
          NodeOfHasId(tree, p);
          match IndexOf(parent.children, f)
          case Some(i) =>
            IndexInRange(parent.children, f);
            Success(Exchange(tree, p, parent.(children := parent.children[i := n'])))
          case None => Failure(NotAmongSiblings)
  }

  function UpdatedEvents(events: seq<Event>, newEvents: seq<Event>, action: Action): Result<seq<Event>, Error> {
    var tree := TreeOf(events);
    match LastScorers(Walk(tree))
    case None => Success(events + newEvents)
    case Some(f) =>
      var newTree := TreeOf(newEvents);
      if |newTree| != 1 then Failure(NotOneTree)
      else if !newTree[0].Node? then Failure(NotASpan)
      else
        LastScorersFound(Walk(tree));
        match Edited(tree, f, newTree[0], action)
        case Success(t) => Success(Flatten(t))
        case Failure(e) => Failure(e)
  }

  method FindScorersSpan(tree: seq<Tree>) returns (last: Option<Tree>)
    ensures last == LastScorers(Walk(tree))
    ensures last.Some? ==> last.value.Node?
    ensures last.Some? ==> last.value.typ == Some("scorers") && last.value.name == "scorers"
    ensures last.Some? ==>
      exists i :: 0 <= i < |Walk(tree)| && Walk(tree)[i] == last.value && NoneScorers(Walk(tree)[i + 1..])
    ensures last.None? ==> NoneScorers(Walk(tree))
  {
    last := None;
    var nodes := Walk(tree);
    for i := 0 to |nodes|
      invariant last == LastScorers(nodes[..i])
      invariant last.Some? ==> last.value.Node?
    {
      assert nodes[..i + 1][..i] == nodes[..i];
      if IsScorers(nodes[i]) { last := Some(nodes[i]); }
    }
    assert nodes[..|nodes|] == nodes;
    LastScorersIs(nodes);
  }

  /** The last scorers span: a span of that type and name in the walk with none after it. */
  lemma {:induction false} LastScorersIs(nodes: seq<Tree>)
    ensures match LastScorers(nodes)
      case Some(t) =>
        && t.Node? && t.typ == Some("scorers") && t.name == "scorers"
        && exists i :: 0 <= i < |nodes| && nodes[i] == t && NoneScorers(nodes[i + 1..])
      case None => NoneScorers(nodes)
  {
    if nodes != [] {
      var n := |nodes| - 1;
      LastScorersIs(nodes[..n]);
      if IsScorers(nodes[n]) {
        assert nodes[n] == LastScorers(nodes).value && NoneScorers(nodes[n + 1..]);
      } else if LastScorers(nodes[..n]).Some? {
        var i :| 0 <= i < n && nodes[i] == LastScorers(nodes).value && NoneScorers(nodes[..n][i + 1..]);
        assert nodes[i + 1..] == nodes[..n][i + 1..] + [nodes[n]];
      }
    }
  }

  predicate NoneScorers(nodes: seq<Tree>) {
    forall t <- nodes :: t.Node? ==> t.typ != Some("scorers") || t.name != "scorers"
  }

  /** The first node of the walk with an id. */
  method FindNode(tree: seq<Tree>, id: string) returns (found: Option<Tree>)
    ensures found == NodeOf(tree, id)
  {
    var nodes := Walk(tree);
    WalkFirst(tree, id);
    for i := 0 to |nodes|
      invariant FirstWithId(nodes[..i], id) == None
    {
      FirstOfPrefix(nodes, i, id);
      if nodes[i].Node? && nodes[i].id == id { return Some(nodes[i]); }
    }
    assert nodes[..|nodes|] == nodes;
    return None;
  }

  /** siblings.index. */
  method FindIndex(siblings: seq<Tree>, t: Tree) returns (index: Option<nat>)
    ensures index == IndexOf(siblings, t)
  {
    for i := 0 to |siblings|
      invariant t !in siblings[..i]
    {
      if siblings[i] == t {
        FirstIndex(siblings, t, i);
        return Some(i);
      }
    }
    assert siblings[..|siblings|] == siblings;
    IndexInRange(siblings, t);
    return None;
  }

  /**
   `_get_updated_events`. On well-nested transcripts whose last scorers span is f, with new events that are one span n: the old
   events with the inner events of n at the end of f, or with the events of f exchanged for the new ones; or the failed
   assertion when f names a parent that is not there.
   */
  method GetUpdatedEvents(events: seq<Event>, newEvents: seq<Event>, action: Action) returns (r: Result<seq<Event>, Error>)
    ensures r == UpdatedEvents(events, newEvents, action)
    ensures forall f, n :: Spliced(events, newEvents, f, n) && action == Append ==>
      r.Success? && Appended(events, newEvents, f, n, r.value)
    ensures forall f, n :: Spliced(events, newEvents, f, n) && action == Overwrite ==>
      if UnknownParent(events, f) then r == Failure(ParentMissing)
      else r.Success? && Overwritten(events, newEvents, f, r.value)
    ensures LastScorers(Walk(TreeOf(events))).None? ==> r == Success(events + newEvents)
    ensures LastScorers(Walk(TreeOf(events))).Some? && |TreeOf(newEvents)| != 1 ==> r == Failure(NotOneTree)
    ensures LastScorers(Walk(TreeOf(events))).Some? && |TreeOf(newEvents)| == 1 && TreeOf(newEvents)[0].Leaf? ==>
              r == Failure(NotASpan)
  {
    forall f, n | Spliced(events, newEvents, f, n)
      ensures UpdatedEvents(events, newEvents, Append).Success?
      ensures Appended(events, newEvents, f, n, UpdatedEvents(events, newEvents, Append).value)
    {
      var a, z := AppendSplices(events, newEvents, f, n);
    }
    forall f, n | Spliced(events, newEvents, f, n)
      ensures if UnknownParent(events, f) then UpdatedEvents(events, newEvents, Overwrite) == Failure(ParentMissing)
              else UpdatedEvents(events, newEvents, Overwrite).Success? &&
                   Overwritten(events, newEvents, f, UpdatedEvents(events, newEvents, Overwrite).value)
    {
      OverwriteFails(events, newEvents, f, n);
      if !UnknownParent(events, f) {
        var a, z := OverwriteSplices(events, newEvents, f, n);
      }
    }
    r := Update(events, newEvents, action);
  }

  method Update(events: seq<Event>, newEvents: seq<Event>, action: Action) returns (r: Result<seq<Event>, Error>)
    ensures r == UpdatedEvents(events, newEvents, action)
  {
    var tree := TreeOf(events);
    var found := FindScorersSpan(tree);
    if found.None? { return Success(events + newEvents); }
    var f := found.value;
    var newTree := TreeOf(newEvents);
    if |newTree| != 1 { return Failure(NotOneTree); }
    var n := newTree[0];
    if !n.Node? { return Failure(NotASpan); }
    if action == Append {
      var added: seq<Tree> := [];
      for i := 0 to |n.children|
        invariant added == Reparented(n.children[..i], f.id)
      {
        var child := n.children[i];
        if child.Node? { child := child.(parentId := Some(f.id)); }
        added := added + [child];
      }
      assert n.children[..|n.children|] == n.children;
      tree := Exchange(tree, f.id, f.(children := f.children + added));
    } else {
      n := n.(parentId := f.parentId);
      if f.parentId.None? {
        var index := FindIndex(tree, f);
        if index.None? { return Failure(NotAmongSiblings); }
        IndexInRange(tree, f);
        tree := tree[index.value := n];
      } else {
        var point := FindNode(tree, f.parentId.value);
        if point.None? { return Failure(ParentMissing); }
        var parent := point.value;
        NodeOfHasId(tree, f.parentId.value);
        var index := FindIndex(parent.children, f);
        if index.None? { return Failure(NotAmongSiblings); }
        IndexInRange(parent.children, f);
        tree := Exchange(tree, f.parentId.value, parent.(children := parent.children[index.value := n]));
      }
    }
    r := Success(Flatten(tree));
  }

  /** The inner events of n stand right behind those of f, before its end. */
  ghost predicate Appended(events: seq<Event>, newEvents: seq<Event>, f: Tree, n: Tree, r: seq<Event>)
    requires f.Node? && n.Node?
  {
    exists a, z ::
      && newEvents == [n.begin] + Flatten(n.children) + EndSeq(n)
      && events == a + [f.begin] + Flatten(f.children) + EndSeq(f) + z
      && r == a + [f.begin] + Flatten(f.children) + Flatten(n.children) + EndSeq(f) + z
  }

  /** The new events stand in the place of those of f. */
  ghost predicate Overwritten(events: seq<Event>, newEvents: seq<Event>, f: Tree, r: seq<Event>)
    requires f.Node?
  {
    exists a, z :: events == a + [f.begin] + Flatten(f.children) + EndSeq(f) + z && r == a + newEvents + z
  }

  predicate UnknownParent(events: seq<Event>, f: Tree)
    requires f.Node?
  {
    f.parentId.Some? && (f.parentId.value == "" || f.parentId.value !in SpanIds(events))
  }

  // ----- searching the walk ---------------------------------------------------------------------------------------

  function FirstWithId(nodes: seq<Tree>, id: string): Option<Tree> {
    if nodes == [] then None
    else if nodes[0].Node? && nodes[0].id == id then Some(nodes[0])
    else FirstWithId(nodes[1..], id)
  }

  lemma {:induction false} FirstConcat(a: seq<Tree>, b: seq<Tree>, id: string)
    ensures FirstWithId(a + b, id) == if FirstWithId(a, id).Some? then FirstWithId(a, id) else FirstWithId(b, id)
  {
    if a == [] {
      assert a + b == b;
    } else {
      assert (a + b)[0] == a[0] && (a + b)[1..] == a[1..] + b;
      FirstConcat(a[1..], b, id);
    }
  }

  lemma FirstOfPrefix(nodes: seq<Tree>, i: nat, id: string)
    requires i < |nodes| && FirstWithId(nodes[..i], id) == None
    ensures if nodes[i].Node? && nodes[i].id == id then FirstWithId(nodes, id) == Some(nodes[i])
            else FirstWithId(nodes[..i + 1], id) == None
  {
    assert nodes[..i + 1] == nodes[..i] + [nodes[i]];
    FirstConcat(nodes[..i], [nodes[i]], id);
    assert nodes == nodes[..i + 1] + nodes[i + 1..];
    FirstConcat(nodes[..i + 1], nodes[i + 1..], id);
  }

  /** The first node of the walk with an id is the one found from the top. */
  lemma {:induction false} WalkFirst(ts: seq<Tree>, id: string)
    ensures FirstWithId(Walk(ts), id) == NodeOf(ts, id)
    decreases ts
  {
    if ts != [] {
      WalkFirst(ts[1..], id);
      match ts[0] {
        case Leaf(_) => assert [] + Walk(ts[1..]) == Walk(ts[1..]);
        case Node(i, _, _, _, _, _, children) =>
          WalkFirst(children, id);
          FirstConcat([ts[0]], Walk(children), id);
          FirstConcat([ts[0]] + Walk(children), Walk(ts[1..]), id);
          assert [ts[0]][1..] == [];
      }
    }
  }

  lemma {:induction false} FirstIndex(ts: seq<Tree>, t: Tree, i: nat)
    requires i < |ts| && ts[i] == t && t !in ts[..i]
    ensures IndexOf(ts, t) == Some(i)
  {
    if i > 0 {
      assert ts[0] in ts[..i];
      assert forall x :: x in ts[1..][..i - 1] ==> x in ts[..i];
      FirstIndex(ts[1..], t, i - 1);
    }
  }

  // ----- lemmas ---------------------------------------------------------------------------------------------------

  lemma {:induction false} IndexInRange(ts: seq<Tree>, t: Tree)
    ensures IndexOf(ts, t).Some? ==> IndexOf(ts, t).value < |ts| && ts[IndexOf(ts, t).value] == t
    ensures IndexOf(ts, t).Some? <==> t in ts
  {
    if ts != [] { IndexInRange(ts[1..], t); }
  }

  lemma {:induction false} NodeOfHasId(ts: seq<Tree>, id: string)
    ensures NodeOf(ts, id).Some? ==> NodeOf(ts, id).value.Node? && NodeOf(ts, id).value.id == id
  {
    if ts != [] {
      match ts[0] {
        case Leaf(_) =>
        case Node(_, _, _, _, _, _, children) => NodeOfHasId(children, id);
      }
      NodeOfHasId(ts[1..], id);
    }
  }

  lemma {:induction false} LastScorersFound(nodes: seq<Tree>)
    ensures LastScorers(nodes).Some? ==> LastScorers(nodes).value in nodes && IsScorers(LastScorers(nodes).value)
  {
    if nodes != [] { LastScorersFound(nodes[..|nodes| - 1]); }
  }

  /** The end event of a node, as a list of none or one. */
  function EndSeq(t: Tree): seq<Event>
    requires t.Node?
  {
    match t.end case Some(e) => [e] case None => []
  }

  lemma {:induction false} FlattenConcat(a: seq<Tree>, b: seq<Tree>)
    ensures Flatten(a + b) == Flatten(a) + Flatten(b)
  {
    if a == [] {
      assert a + b == b;
    } else {
      assert (a + b)[0] == a[0] && (a + b)[1..] == a[1..] + b;
      FlattenConcat(a[1..], b);
    }
  }

  lemma {:induction false} FlattenReparented(ts: seq<Tree>, parent: string)
    ensures Flatten(Reparented(ts, parent)) == Flatten(ts)
  {
    if ts != [] {
      assert Reparented(ts, parent)[1..] == Reparented(ts[1..], parent);
      FlattenReparented(ts[1..], parent);
      assert FlattenOne(Reparented(ts, parent)[0]) == FlattenOne(ts[0]);
    }
  }

  /** Around the node with an id: what is flattened before it and after it, whatever stands in its place. */
  lemma {:induction false} Around(ts: seq<Tree>, id: string, new_: Tree) returns (a: seq<Event>, z: seq<Event>)
    requires NodeOf(ts, id).Some?
    ensures Flatten(ts) == a + FlattenOne(NodeOf(ts, id).value) + z
    ensures Flatten(Exchange(ts, id, new_)) == a + FlattenOne(new_) + z
    decreases ts
  {
    var t, rest := ts[0], ts[1..];
    if NodeIn(t, id).Some? {
      var x, y := AroundIn(t, id, new_);
      a, z := x, y + Flatten(rest);
      FlattenFirst(ExchangeIn(t, id, new_), rest);
      Rejoin([], x, FlattenOne(NodeOf(ts, id).value), y, Flatten(rest));
      Rejoin([], x, FlattenOne(new_), y, Flatten(rest));
    } else {
      var x, y := Around(rest, id, new_);
      a, z := FlattenOne(t) + x, y;
      FlattenFirst(t, Exchange(rest, id, new_));
      Rejoin(FlattenOne(t), x, FlattenOne(new_), y, []);
      Rejoin(FlattenOne(t), x, FlattenOne(NodeOf(rest, id).value), y, []);
    }
  }

  lemma FlattenFirst(t: Tree, rest: seq<Tree>)
    ensures Flatten([t] + rest) == FlattenOne(t) + Flatten(rest)
  {
    assert ([t] + rest)[1..] == rest;
  }

  lemma Rejoin(l: seq<Event>, x: seq<Event>, m: seq<Event>, y: seq<Event>, r: seq<Event>)
    ensures l + (x + m + y) + r == (l + x) + m + (y + r)
    ensures l == [] ==> x + m + y + r == x + m + (y + r)
    ensures r == [] ==> l + (x + m + y) == (l + x) + m + y
  {
  }

  lemma {:induction false} AroundIn(t: Tree, id: string, new_: Tree) returns (a: seq<Event>, z: seq<Event>)
    requires NodeIn(t, id).Some?
    ensures FlattenOne(t) == a + FlattenOne(NodeIn(t, id).value) + z
    ensures FlattenOne(ExchangeIn(t, id, new_)) == a + FlattenOne(new_) + z
    decreases t
  {
    if t.id == id {
      a, z := [], [];
    } else {
      var x, y := Around(t.children, id, new_);
      a, z := [t.begin] + x, y + EndSeq(t);
      var m := FlattenOne(NodeIn(t, id).value);
      Rejoin([t.begin], x, m, y, EndSeq(t));
      Rejoin([t.begin], x, FlattenOne(new_), y, EndSeq(t));
    }
  }

  /** Every node carries its own begin event, and its parent is the node it stands in. */
  ghost predicate Sound(ts: seq<Tree>, known: set<string>, home: Option<string>) {
    forall t <- ts :: SoundNode(t, known, home)
  }

  ghost predicate SoundNode(t: Tree, known: set<string>, home: Option<string>) {
    t.Node? ==>
      && t.begin.SpanBegin? && t.begin.id == t.id && t.begin.parent == t.parentId && Home(known, t.begin) == home
      && t.begin.typ == t.typ && t.begin.name == t.name
      && Sound(t.children, known, Some(t.id))
  }

  lemma {:induction false} GrowSound(events: seq<Event>, items: seq<Event>, x: Option<string>, fuel: nat)
    requires UniqueBegins(events) && forall b <- items :: b in Bucket(events, SpanIds(events), x)
    ensures Sound(Grow(NodesOf(events), items, fuel), SpanIds(events), x)
    decreases fuel, |items| + 2
  {
    if items != [] {
      assert items[0] in items;
      GrowSound(events, items[1..], x, fuel);
      BranchSound(events, items[0], x, fuel);
    }
  }

  lemma {:induction false} BranchSound(events: seq<Event>, b: Event, x: Option<string>, fuel: nat)
    requires UniqueBegins(events) && b in Bucket(events, SpanIds(events), x)
    ensures SoundNode(Branch(NodesOf(events), b, fuel), SpanIds(events), x)
    decreases fuel, 1
  {
    FilterMember(events, ChildOf(SpanIds(events), x));
    if b.SpanBegin? {
      if fuel > 0 {
        GrowSound(events, Bucket(events, SpanIds(events), Some(b.id)), Some(b.id), fuel - 1);
      }
      SpanSound(events, b, fuel);
    }
  }

  lemma SpanSound(events: seq<Event>, b: Event, fuel: nat)
    requires UniqueBegins(events) && b in events && b.SpanBegin?
    requires fuel > 0 ==>
      Sound(Grow(NodesOf(events), Bucket(events, SpanIds(events), Some(b.id)), fuel - 1), SpanIds(events), Some(b.id))
    ensures SoundNode(Branch(NodesOf(events), b, fuel), SpanIds(events), Home(SpanIds(events), b))
  {
    BranchIs(events, b, fuel);
  }

  /** A node of the walk stands at the root, or among the children of another node of the walk. */
  ghost predicate Stands(ts: seq<Tree>, all: seq<Tree>, t: Tree) {
    t in ts || exists p <- all :: p.Node? && t in p.children
  }

  lemma {:induction false} WalkStands(ts: seq<Tree>, t: Tree)
    requires t in Walk(ts)
    ensures t.Node? && Stands(ts, Walk(ts), t)
    decreases ts
  {
    var first, rest := ts[0], ts[1..];
    if t in Walk(rest) {
      WalkStands(rest, t);
      if t !in rest {
        var p :| p in Walk(rest) && p.Node? && t in p.children;
        assert p in Walk(ts);
      }
    } else if t != first {
      assert t in Walk(first.children);
      WalkStands(first.children, t);
      if t in first.children {
        assert first in Walk(ts);
      } else {
        var p :| p in Walk(first.children) && p.Node? && t in p.children;
        assert p in Walk(ts);
      }
    }
  }

  lemma {:induction false} WalkSound(ts: seq<Tree>, known: set<string>, home: Option<string>, t: Tree)
    requires Sound(ts, known, home) && t in Walk(ts)
    ensures t.Node? && t.begin.SpanBegin? && t.begin.id == t.id && t.begin.parent == t.parentId
    ensures Sound(t.children, known, Some(t.id))
    ensures t.begin in Flatten(ts)
    decreases ts
  {
    var first, rest := ts[0], ts[1..];
    assert SoundNode(first, known, home);
    if t in Walk(rest) {
      WalkSound(rest, known, home, t);
    } else if t != first {
      WalkSound(first.children, known, Some(first.id), t);
    }
  }

  /** With unique begin events, the first node with the id of a node is that node. */
  lemma {:induction false} NodeOfIs(ts: seq<Tree>, known: set<string>, home: Option<string>, t: Tree)
    requires Sound(ts, known, home) && t in Walk(ts) && UniqueBegins(Flatten(ts))
    ensures t.Node? && NodeOf(ts, t.id) == Some(t)
    decreases ts
  {
    var first, rest := ts[0], ts[1..];
    WalkSound(ts, known, home, t);
    assert SoundNode(first, known, home);
    UniqueParts(FlattenOne(first), Flatten(rest));
    if t in Walk(rest) {
      NodeOfIs(rest, known, home, t);
      WalkSound(rest, known, home, t);
      if NodeIn(first, t.id).Some? {
        NodeInFlat(first, known, home, t.id);
        assert false;
      }
    } else if t != first {
      var inner := Flatten(first.children);
      WalkSound(first.children, known, Some(first.id), t);
      UniqueParts([first.begin] + inner, EndSeq(first));
      UniqueParts([first.begin], inner);
      NodeOfIs(first.children, known, Some(first.id), t);
      assert first.begin in [first.begin];
      assert first.id != t.id;
    }
  }

  /** In a list of unique begins, the parts are unique and share none. */
  lemma UniqueParts(a: seq<Event>, b: seq<Event>)
    requires UniqueBegins(a + b)
    ensures UniqueBegins(a) && UniqueBegins(b)
    ensures forall x <- a, y <- b :: x.SpanBegin? && y.SpanBegin? ==> x.id != y.id
  {
    var s := a + b;
    forall i, j | 0 <= i < j < |a| && a[i].SpanBegin? && a[j].SpanBegin? ensures a[i].id != a[j].id {
      assert s[i] == a[i] && s[j] == a[j];
    }
    forall i, j | 0 <= i < j < |b| && b[i].SpanBegin? && b[j].SpanBegin? ensures b[i].id != b[j].id {
      assert s[|a| + i] == b[i] && s[|a| + j] == b[j];
    }
    forall x, y | x in a && y in b && x.SpanBegin? && y.SpanBegin? ensures x.id != y.id {
      var i :| 0 <= i < |a| && a[i] == x;
      var j :| 0 <= j < |b| && b[j] == y;
      assert s[i] == x && s[|a| + j] == y;
    }
  }

  lemma {:induction false} NodeInFlat(t: Tree, known: set<string>, home: Option<string>, id: string)
    requires SoundNode(t, known, home) && NodeIn(t, id).Some?
    ensures exists b <- FlattenOne(t) :: b.SpanBegin? && b.id == id
    decreases t
  {
    if t.id == id {
      assert t.begin in FlattenOne(t);
    } else {
      NodeOfFlat(t.children, known, Some(t.id), id);
      var b :| b in Flatten(t.children) && b.SpanBegin? && b.id == id;
      assert b in FlattenOne(t);
    }
  }

  lemma {:induction false} NodeOfFlat(ts: seq<Tree>, known: set<string>, home: Option<string>, id: string)
    requires Sound(ts, known, home) && NodeOf(ts, id).Some?
    ensures exists b <- Flatten(ts) :: b.SpanBegin? && b.id == id
    decreases ts
  {
    assert SoundNode(ts[0], known, home);
    if NodeIn(ts[0], id).Some? {
      NodeInFlat(ts[0], known, home, id);
      var b :| b in FlattenOne(ts[0]) && b.SpanBegin? && b.id == id;
      assert b in Flatten(ts);
    } else {
      NodeOfFlat(ts[1..], known, home, id);
      var b :| b in Flatten(ts[1..]) && b.SpanBegin? && b.id == id;
      assert b in Flatten(ts);
    }
  }

  // ----- the splice, on well-nested transcripts ---------------------------------------------------------------------

  lemma TreeSound(events: seq<Event>)
    requires WellNested(events)
    ensures Sound(TreeOf(events), SpanIds(events), None)
    ensures Flatten(TreeOf(events)) == events && UniqueBegins(events)
  {
    NestedUnique(events, SpanIds(events));
    RoundTrip(events);
    GrowSound(events, Bucket(events, SpanIds(events), None), None, |events|);
  }

  /** The node that a second scoring goes to, and the tree of the new events. */
  ghost predicate Spliced(events: seq<Event>, newEvents: seq<Event>, f: Tree, n: Tree) {
    && WellNested(events) && WellNested(newEvents)
    && LastScorers(Walk(TreeOf(events))) == Some(f) && f.Node?
    && TreeOf(newEvents) == [n] && n.Node?
  }

  lemma NewEvents(newEvents: seq<Event>, n: Tree)
    requires WellNested(newEvents) && TreeOf(newEvents) == [n] && n.Node?
    ensures newEvents == [n.begin] + Flatten(n.children) + EndSeq(n)
  {
    RoundTrip(newEvents);
    assert Flatten([n]) == FlattenOne(n) + Flatten([]);
  }

  /** "append": the inner events of the new scorers span come out contiguously as the last children of the old one. */
  lemma AppendSplices(events: seq<Event>, newEvents: seq<Event>, f: Tree, n: Tree) returns (a: seq<Event>, z: seq<Event>)
    requires Spliced(events, newEvents, f, n)
    ensures newEvents == [n.begin] + Flatten(n.children) + EndSeq(n)
    ensures events == a + [f.begin] + Flatten(f.children) + EndSeq(f) + z
    ensures UpdatedEvents(events, newEvents, Append)
            == Success(a + [f.begin] + Flatten(f.children) + Flatten(n.children) + EndSeq(f) + z)
  {
    var tree := TreeOf(events);
    var added := Reparented(n.children, f.id);
    var f' := f.(children := f.children + added);
    TreeSound(events);
    LastScorersFound(Walk(tree));
    NodeOfIs(tree, SpanIds(events), None, f);
    NewEvents(newEvents, n);
    a, z := Around(tree, f.id, f');
    FlattenConcat(f.children, added);
    FlattenReparented(n.children, f.id);
    JoinNode(a, f.begin, Flatten(f.children), [], EndSeq(f), z);
    JoinNode(a, f.begin, Flatten(f.children), Flatten(n.children), EndSeq(f), z);
    AppendIs(events, newEvents, f, n);
  }

  lemma AppendIs(events: seq<Event>, newEvents: seq<Event>, f: Tree, n: Tree)
    requires Spliced(events, newEvents, f, n)
    ensures UpdatedEvents(events, newEvents, Append)
            == Success(Flatten(Exchange(TreeOf(events), f.id, f.(children := f.children + Reparented(n.children, f.id)))))
  {
  }

  lemma JoinNode(a: seq<Event>, b: Event, c: seq<Event>, d: seq<Event>, e: seq<Event>, z: seq<Event>)
    ensures a + ([b] + (c + d) + e) + z == a + [b] + c + d + e + z
    ensures d == [] ==> a + ([b] + c + e) + z == a + [b] + c + e + z
  {
  }

  lemma ExchangeAt(ts: seq<Tree>, i: nat, n: Tree)
    requires i < |ts|
    ensures Flatten(ts) == Flatten(ts[..i]) + FlattenOne(ts[i]) + Flatten(ts[i + 1..])
    ensures Flatten(ts[i := n]) == Flatten(ts[..i]) + FlattenOne(n) + Flatten(ts[i + 1..])
  {
    assert ts == ts[..i] + ([ts[i]] + ts[i + 1..]) && ts[i := n] == ts[..i] + ([n] + ts[i + 1..]);
    FlattenConcat(ts[..i], [ts[i]] + ts[i + 1..]);
    FlattenConcat(ts[..i], [n] + ts[i + 1..]);
    assert ([ts[i]] + ts[i + 1..])[1..] == ts[i + 1..] && ([n] + ts[i + 1..])[1..] == ts[i + 1..];
  }

  /** A node with its parent in the tree stands among that parent's children; else it stands at the root. */
  lemma WhereItStands(events: seq<Event>, f: Tree)
    requires WellNested(events) && f in Walk(TreeOf(events))
    ensures f.Node?
    ensures match Home(SpanIds(events), f.begin)
            case None => f in TreeOf(events)
            case Some(p) => f.parentId == Some(p) && NodeOf(TreeOf(events), p).Some?
                            && NodeOf(TreeOf(events), p).value.Node? && f in NodeOf(TreeOf(events), p).value.children
  {
    var tree, known := TreeOf(events), SpanIds(events);
    TreeSound(events);
    WalkStands(tree, f);
    WalkSound(tree, known, None, f);
    if f in tree {
      assert SoundNode(f, known, None);
    } else {
      var p :| p in Walk(tree) && p.Node? && f in p.children;
      WalkSound(tree, known, None, p);
      assert SoundNode(f, known, Some(p.id));
      NodeOfIs(tree, known, None, p);
    }
  }

  /** No node of a well-nested transcript has an unknown or empty id. */
  lemma NoSuchNode(events: seq<Event>, p: string)
    requires WellNested(events) && (p == "" || p !in SpanIds(events))
    ensures NodeOf(TreeOf(events), p).None?
  {
    TreeSound(events);
    if NodeOf(TreeOf(events), p).Some? {
      NodeOfFlat(TreeOf(events), SpanIds(events), None, p);
      var b :| b in events && b.SpanBegin? && b.id == p;
      SpanIdIn(events, b);
      IdsNonEmpty(events, SpanIds(events), b);
    }
  }

  lemma {:induction false} IdsNonEmpty(events: seq<Event>, known: set<string>, b: Event)
    requires OpenSpans(events, known).Some? && b in events && b.SpanBegin?
    ensures b.id != ""
  {
    var k := |events| - 1;
    assert events == events[..k] + [events[k]];
    if b in events[..k] { IdsNonEmpty(events[..k], known, b); }
  }

  /** "overwrite" fails exactly when the old span names a parent that the transcript does not have. */
  lemma OverwriteFails(events: seq<Event>, newEvents: seq<Event>, f: Tree, n: Tree)
    requires Spliced(events, newEvents, f, n)
    ensures UpdatedEvents(events, newEvents, Overwrite).Failure?
            <==> f.parentId.Some? && (f.parentId.value == "" || f.parentId.value !in SpanIds(events))
    ensures UpdatedEvents(events, newEvents, Overwrite).Failure?
            ==> UpdatedEvents(events, newEvents, Overwrite).error == ParentMissing
  {
    var tree := TreeOf(events);
    LastScorersFound(Walk(tree));
    WhereItStands(events, f);
    TreeSound(events);
    WalkSound(tree, SpanIds(events), None, f);
    match f.parentId {
      case None => IndexInRange(tree, f);
      case Some(p) =>
        if p == "" || p !in SpanIds(events) {
          NoSuchNode(events, p);
        } else {
          IndexInRange(NodeOf(tree, p).value.children, f);
        }
    }
  }

  /** "overwrite": exactly the events of the old span give way to the new events; all others stay, in order. */
  lemma OverwriteSplices(events: seq<Event>, newEvents: seq<Event>, f: Tree, n: Tree) returns (a: seq<Event>, z: seq<Event>)
    requires Spliced(events, newEvents, f, n) && UpdatedEvents(events, newEvents, Overwrite).Success?
    ensures events == a + [f.begin] + Flatten(f.children) + EndSeq(f) + z
    ensures UpdatedEvents(events, newEvents, Overwrite) == Success(a + newEvents + z)
  {
    var tree, n' := TreeOf(events), n.(parentId := f.parentId);
    TreeSound(events);
    LastScorersFound(Walk(tree));
    NewEvents(newEvents, n);
    assert FlattenOne(n') == newEvents;
    a, z := OverwriteTree(tree, f, n);
    JoinNode(a, f.begin, Flatten(f.children), [], EndSeq(f), z);
  }

  lemma OverwriteTree(tree: seq<Tree>, f: Tree, n: Tree) returns (a: seq<Event>, z: seq<Event>)
    requires f.Node? && n.Node? && Edited(tree, f, n, Overwrite).Success?
    ensures Flatten(tree) == a + FlattenOne(f) + z
    ensures Flatten(Edited(tree, f, n, Overwrite).value) == a + FlattenOne(n.(parentId := f.parentId)) + z
  {
    var n' := n.(parentId := f.parentId);
    match f.parentId
    case None =>
      IndexInRange(tree, f);
      var i := IndexOf(tree, f).value;
      ExchangeAt(tree, i, n');
      a, z := Flatten(tree[..i]), Flatten(tree[i + 1..]);
    case Some(p) =>
      NodeOfHasId(tree, p);
      var parent := NodeOf(tree, p).value;
      IndexInRange(parent.children, f);
      a, z := OverwriteChild(tree, p, parent, IndexOf(parent.children, f).value, n');
  }

  lemma OverwriteChild(tree: seq<Tree>, p: string, parent: Tree, i: nat, n: Tree) returns (a: seq<Event>, z: seq<Event>)
    requires NodeOf(tree, p) == Some(parent) && parent.Node? && i < |parent.children|
    ensures Flatten(tree) == a + FlattenOne(parent.children[i]) + z
    ensures Flatten(Exchange(tree, p, parent.(children := parent.children[i := n]))) == a + FlattenOne(n) + z
  {
    var cs, parent' := parent.children, parent.(children := parent.children[i := n]);
    var x, y := Around(tree, p, parent');
    ExchangeAt(cs, i, n);
    var l, r := Flatten(cs[..i]), Flatten(cs[i + 1..]);
    a, z := x + [parent.begin] + l, r + EndSeq(parent) + y;
    JoinChild(x, parent.begin, l, FlattenOne(cs[i]), r, EndSeq(parent), y);
    JoinChild(x, parent.begin, l, FlattenOne(n), r, EndSeq(parent), y);
  }

  lemma JoinChild(x: seq<Event>, b: Event, l: seq<Event>, m: seq<Event>, r: seq<Event>, e: seq<Event>, y: seq<Event>)
    ensures x + ([b] + (l + m + r) + e) + y == (x + [b] + l) + m + (r + e + y)
  {
  }

  // ----- _get_updated_scores ---------------------------------------------------------------------------------------------

  type Score = int

  /** A key, or the key with a number: key, key-1, key-2, ... */
  function Numbered(key: string, n: nat): string {
    if n == 0 then key else key + "-" + Decimal.ToText(n)
  }

  lemma NumberedDistinct(key: string, m: nat, n: nat)
    requires Numbered(key, m) == Numbered(key, n)
    ensures m == n
  {
    if m > 0 && n > 0 {
      var a, b := key + "-" + Decimal.ToText(m), key + "-" + Decimal.ToText(n);
      assert a[|key| + 1..] == Decimal.ToText(m) && b[|key| + 1..] == Decimal.ToText(n);
      Decimal.Injective(m, n);
    } else {
      assert |Numbered(key, 0)| == |key|;
    }
  }

  /** The first numbered name not in the table. The search ends: the names tried are distinct keys of the table. */
  method FreshName(table: map<string, Score>, key: string) returns (name: string, n: nat)
    ensures name !in table && name == Numbered(key, n)
    ensures forall m: nat :: m < n ==> Numbered(key, m) in table
    ensures n <= |table|
  {
    n := 0;
    name := key;
    ghost var tried: set<string> := {};
    while name in table
      invariant name == Numbered(key, n)
      invariant forall m: nat :: m < n ==> Numbered(key, m) in table
      invariant tried == set m: nat | m < n :: Numbered(key, m)
      invariant |tried| == n && tried <= table.Keys
      decreases |table| - n
    {
      assert Numbered(key, n) !in tried by {
        if Numbered(key, n) in tried {
          var m: nat :| m < n && Numbered(key, m) == Numbered(key, n);
          NumberedDistinct(key, m, n);
        }
      }
      tried := tried + {Numbered(key, n)};
      SubsetSize(tried, table.Keys);
      n := n + 1;
      name := key + "-" + Decimal.ToText(n);
    }
    SubsetSize(tried, table.Keys);
  }

  /**
   Overwriting leaves the new scores, each under its own key, and nothing else: of scores with the same key the last one.
   Appending keeps every existing entry and gives every new score its own fresh name.
   */
  method GetUpdatedScores(existing: Option<map<string, Score>>, scores: seq<(string, Score)>, action: Action)
    returns (updated: map<string, Score>, names: seq<string>)
    ensures |names| == |scores|
    ensures action == Overwrite ==> forall i :: 0 <= i < |scores| ==> names[i] == scores[i].0
    ensures action == Overwrite ==> forall k :: k in updated <==> exists i :: 0 <= i < |scores| && scores[i].0 == k
    ensures action == Overwrite ==>
      forall i :: 0 <= i < |scores| && (forall j :: i < j < |scores| ==> scores[j].0 != scores[i].0) ==>
        updated[scores[i].0] == scores[i].1
    ensures action == Append ==>
      AppendedTo(if existing.Some? then existing.value else map[], scores, names, updated)
  {
    names := [];
    updated := map[];
    if action == Overwrite {
      for i := 0 to |scores|
        invariant OverwrittenBy(scores[..i], names, updated)
      {
        assert scores[..i + 1] == scores[..i] + [scores[i]];
        OverwriteOne(scores[..i], names, updated, scores[i]);
        names := names + [scores[i].0];
        updated := updated[scores[i].0 := scores[i].1];
      }
      assert scores[..|scores|] == scores;
      return;
    }
    var table := if existing.Some? then existing.value else map[];
    updated := table;
    for i := 0 to |scores|
      invariant AppendedTo(table, scores[..i], names, updated)
    {
      var name, n := FreshName(updated, scores[i].0);
      assert scores[..i + 1] == scores[..i] + [scores[i]];
      AppendOne(table, scores[..i], names, updated, scores[i], name, n);
      updated := updated[name := scores[i].1];
      names := names + [name];
    }
    assert scores[..|scores|] == scores;
  }

  /** The table holds the keys of the scores and nothing else, each with its last score. */
  ghost predicate OverwrittenBy(scores: seq<(string, Score)>, names: seq<string>, updated: map<string, Score>) {
    && |names| == |scores| && (forall i :: 0 <= i < |scores| ==> names[i] == scores[i].0)
    && (forall k :: k in updated <==> exists i :: 0 <= i < |scores| && scores[i].0 == k)
    && (forall i :: 0 <= i < |scores| && (forall j :: i < j < |scores| ==> scores[j].0 != scores[i].0) ==>
         updated[scores[i].0] == scores[i].1)
  }

  lemma OverwriteOne(scores: seq<(string, Score)>, names: seq<string>, updated: map<string, Score>, score: (string, Score))
    requires OverwrittenBy(scores, names, updated)
    ensures OverwrittenBy(scores + [score], names + [score.0], updated[score.0 := score.1])
  {
    var all := scores + [score];
    assert all[|scores|] == score;
    forall k | k in updated ensures exists i :: 0 <= i < |all| && all[i].0 == k {
      var i :| 0 <= i < |scores| && scores[i].0 == k;
      assert all[i].0 == k;
    }
    forall i | 0 <= i < |all| && (forall j :: i < j < |all| ==> all[j].0 != all[i].0)
      ensures updated[score.0 := score.1][all[i].0] == all[i].1
    {
      if i < |scores| {
        assert all[|scores|].0 != all[i].0;
        forall j | i < j < |scores| ensures scores[j].0 != scores[i].0 { assert all[j] == scores[j]; }
      }
    }
  }

  /** Every entry of the table is unchanged, and every score is there under its own numbered name, new to the table. */
  ghost predicate AppendedTo(table: map<string, Score>, scores: seq<(string, Score)>, names: seq<string>,
                             updated: map<string, Score>)
  {
    && |names| == |scores| && Distinct(names)
    && (forall i :: 0 <= i < |names| ==> names[i] !in table && FirstFree(table, names[..i], names[i], scores[i].0))
    && (forall k :: k in updated <==> k in table || k in names)
    && (forall k <- table :: k in updated && updated[k] == table[k])
    && (forall i :: 0 <= i < |names| ==> names[i] in updated && updated[names[i]] == scores[i].1)
    && |updated| == |table| + |scores|
  }

  /** The first of key, key-1, key-2, ... that is in neither the table nor the names. */
  ghost predicate FirstFree(table: map<string, Score>, names: seq<string>, name: string, key: string) {
    && name !in table && name !in names
    && exists n: nat :: name == Numbered(key, n)
                        && forall m: nat :: m < n ==> Numbered(key, m) in table || Numbered(key, m) in names
  }

  lemma AppendOne(table: map<string, Score>, scores: seq<(string, Score)>, names: seq<string>,
                  updated: map<string, Score>, score: (string, Score), name: string, n: nat)
    requires AppendedTo(table, scores, names, updated) && name !in updated && name == Numbered(score.0, n)
    requires forall m: nat :: m < n ==> Numbered(score.0, m) in updated
    ensures AppendedTo(table, scores + [score], names + [name], updated[name := score.1])
  {
    OneMore(updated, name, score.1);
    assert FirstFree(table, names, name, score.0);
    forall i | 0 <= i < |names| ensures names[i] != name { assert names[i] in updated; }
    NamesStayFree(table, scores, names, score, name);
  }

  lemma NamesStayFree(table: map<string, Score>, scores: seq<(string, Score)>, names: seq<string>, score: (string, Score),
                      name: string)
    requires |names| == |scores| && FirstFree(table, names, name, score.0)
    requires forall i :: 0 <= i < |names| ==> names[i] !in table && FirstFree(table, names[..i], names[i], scores[i].0)
    ensures forall i :: 0 <= i < |names + [name]| ==>
              && (names + [name])[i] !in table
              && FirstFree(table, (names + [name])[..i], (names + [name])[i], (scores + [score])[i].0)
  {
    forall i | 0 <= i < |names + [name]| ensures FirstFree(table, (names + [name])[..i], (names + [name])[i], (scores + [score])[i].0) {
      assert (names + [name])[..i] == names[..i];
      assert i == |names| ==> names[..i] == names;
    }
  }

  lemma OneMore(table: map<string, Score>, name: string, score: Score)
    requires name !in table
    ensures |table[name := score]| == |table| + 1
  {
    var table' := table[name := score];
    assert table'.Keys == table.Keys + {name};
    assert |table'| == |table'.Keys| && |table| == |table.Keys|;
  }
}
