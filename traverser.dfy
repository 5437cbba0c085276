/**
 * The generic depth-first traversal: a visitor's `enter` is called on a
 * node before its children are visited, left to right, and its `exit`
 * after them. The visitor threads its own state through the calls.
 */
module Traverser {
  import opened Wrappers
  import opened SourceAst

  /** Callbacks on entering and on leaving a node, given its parent (None at the root). */
  datatype Visitor<!S> = Visitor(enter: (Node, Option<Node>, S) -> S, exit: (Node, Option<Node>, S) -> S)

  /** `transNode`: enter, the children in order, exit. */
  function TraverseNode<S>(v: Visitor<S>, node: Node, parent: Option<Node>, s: S): S
    decreases node, 1
  {
    var entered := v.enter(node, parent, s);
    var visited :=
      match node
      case Program(body) => TraverseArray(v, body, node, entered)
      case CallExpression(_, params) => TraverseArray(v, params, node, entered)
      case _ => entered;
    v.exit(node, parent, visited)
  }

  /** `transArray`: each node in turn, with the same parent. */
  function TraverseArray<S>(v: Visitor<S>, nodes: seq<Node>, parent: Node, s: S): S
    decreases nodes, 0
  {
    if nodes == [] then s
    else TraverseArray(v, nodes[1..], parent, TraverseNode(v, nodes[0], Some(parent), s))
  }

  // ----- The order of the callbacks -----

  /** One callback invocation. */
  datatype Event = Enter(node: Node, parent: Option<Node>) | Exit(node: Node, parent: Option<Node>)

  /** The callbacks a traversal of `node` makes, in the order it makes them. */
  function Events(node: Node, parent: Option<Node>): seq<Event>
    decreases node, 1
  {
    var children :=
      match node
      case Program(body) => EventsAll(body, node)
      case CallExpression(_, params) => EventsAll(params, node)
      case _ => [];
    [Enter(node, parent)] + children + [Exit(node, parent)]
  }

  function EventsAll(nodes: seq<Node>, parent: Node): seq<Event>
    decreases nodes, 0
  {
    if nodes == [] then [] else Events(nodes[0], Some(parent)) + EventsAll(nodes[1..], parent)
  }

  /** The state after the visitor's callbacks for `events`, applied in order. */
  function Replay<S>(v: Visitor<S>, events: seq<Event>, s: S): S
    decreases |events|
  {
    if events == [] then s
    else
      var s' := match events[0]
        case Enter(n, p) => v.enter(n, p, s)
        case Exit(n, p) => v.exit(n, p, s);
      Replay(v, events[1..], s')
  }

  lemma {:induction false} ReplayAppend<S>(v: Visitor<S>, a: seq<Event>, b: seq<Event>, s: S)
    ensures Replay(v, a + b, s) == Replay(v, b, Replay(v, a, s))
    decreases |a|
  {
    if a != [] {
      assert (a + b)[0] == a[0] && (a + b)[1..] == a[1..] + b;
      var s' := match a[0]
        case Enter(n, p) => v.enter(n, p, s)
        case Exit(n, p) => v.exit(n, p, s);
      ReplayAppend(v, a[1..], b, s');
    } else {
      assert a + b == b;
    }
  }

  /** Whatever the visitor, a traversal is exactly its callbacks replayed in the order of Events. */
  lemma {:induction false} TraverseIsReplay<S>(v: Visitor<S>, node: Node, parent: Option<Node>, s: S)
    ensures TraverseNode(v, node, parent, s) == Replay(v, Events(node, parent), s)
    decreases node, 1
  {
    var entered := v.enter(node, parent, s);
    var kids :=
      match node
      case Program(body) => EventsAll(body, node)
      case CallExpression(_, params) => EventsAll(params, node)
      case _ => [];
    assert Replay(v, [Enter(node, parent)], s) == entered;
    match node {
      case Program(body) => TraverseArrayIsReplay(v, body, node, entered);
      case CallExpression(_, params) => TraverseArrayIsReplay(v, params, node, entered);
      case _ =>
    }
    var visited := Replay(v, kids, entered);
    assert Replay(v, [Exit(node, parent)], visited) == v.exit(node, parent, visited);
    ReplayAppend(v, [Enter(node, parent)], kids, s);
    ReplayAppend(v, [Enter(node, parent)] + kids, [Exit(node, parent)], s);
  }

  lemma {:induction false} TraverseArrayIsReplay<S>(v: Visitor<S>, nodes: seq<Node>, parent: Node, s: S)
    ensures TraverseArray(v, nodes, parent, s) == Replay(v, EventsAll(nodes, parent), s)
    decreases nodes, 0
  {
    if nodes != [] {
      TraverseIsReplay(v, nodes[0], Some(parent), s);
      TraverseArrayIsReplay(v, nodes[1..], parent, TraverseNode(v, nodes[0], Some(parent), s));
      ReplayAppend(v, Events(nodes[0], Some(parent)), EventsAll(nodes[1..], parent), s);
    }
  }

  /** The nodes in pre-order (each before its children) and in post-order (each after them). */
  function Preorder(n: Node): seq<Node>
    decreases n, 1
  {
    match n
    case Program(body) => [n] + PreorderAll(body)
    case CallExpression(_, params) => [n] + PreorderAll(params)
    case _ => [n]
  }

  function PreorderAll(ns: seq<Node>): seq<Node>
    decreases ns, 0
  {
    if ns == [] then [] else Preorder(ns[0]) + PreorderAll(ns[1..])
  }

  function Postorder(n: Node): seq<Node>
    decreases n, 1
  {
    match n
    case Program(body) => PostorderAll(body) + [n]
    case CallExpression(_, params) => PostorderAll(params) + [n]
    case _ => [n]
  }

  function PostorderAll(ns: seq<Node>): seq<Node>
    decreases ns, 0
  {
    if ns == [] then [] else Postorder(ns[0]) + PostorderAll(ns[1..])
  }

  /** The nodes entered, and the nodes left, in the order of `events`. */
  function Entered(events: seq<Event>): seq<Node> {
    if events == [] then [] else (if events[0].Enter? then [events[0].node] else []) + Entered(events[1..])
  }

  function Exited(events: seq<Event>): seq<Node> {
    if events == [] then [] else (if events[0].Exit? then [events[0].node] else []) + Exited(events[1..])
  }

  lemma {:induction false} EnteredAppend(a: seq<Event>, b: seq<Event>)
    ensures Entered(a + b) == Entered(a) + Entered(b)
    ensures Exited(a + b) == Exited(a) + Exited(b)
    decreases |a|
  {
    if a != [] {
      assert (a + b)[0] == a[0] && (a + b)[1..] == a[1..] + b;
      EnteredAppend(a[1..], b);
    } else {
      assert a + b == b;
    }
  }

  /** Nodes are entered in pre-order and left in post-order: children left to right, between their parent's two callbacks. */
  lemma {:induction false} EventOrder(node: Node, parent: Option<Node>)
    ensures Entered(Events(node, parent)) == Preorder(node)
    ensures Exited(Events(node, parent)) == Postorder(node)
    decreases node, 1
  {
    var kids :=
      match node
      case Program(body) => EventsAll(body, node)
      case CallExpression(_, params) => EventsAll(params, node)
      case _ => [];
    match node {
      case Program(body) => EventOrderAll(body, node);
      case CallExpression(_, params) => EventOrderAll(params, node);
      case _ =>
    }
    EnteredAppend([Enter(node, parent)], kids);
    EnteredAppend([Enter(node, parent)] + kids, [Exit(node, parent)]);
  }

  lemma {:induction false} EventOrderAll(nodes: seq<Node>, parent: Node)
    ensures Entered(EventsAll(nodes, parent)) == PreorderAll(nodes)
    ensures Exited(EventsAll(nodes, parent)) == PostorderAll(nodes)
    decreases nodes, 0
  {
    if nodes != [] {
      EventOrder(nodes[0], Some(parent));
      EventOrderAll(nodes[1..], parent);
      EnteredAppend(Events(nodes[0], Some(parent)), EventsAll(nodes[1..], parent));
    }
  }
}
