/** The handler's linked queue: head and tail always stand for one finite sequence of requests. */
module RequestQueue {
  import opened Coap

  class Node {
    const request: Request
    var next: Node?

    constructor (request: Request)
      ensures this.request == request && next == null
    {
      this.request := request;
      next := null;
    }
  }

  ghost function RequestsOf(nodes: seq<Node>): seq<Request> {
    if nodes == [] then [] else RequestsOf(nodes[..|nodes| - 1]) + [nodes[|nodes| - 1].request]
  }

  lemma {:induction false} RequestsFront(nodes: seq<Node>)
    requires nodes != []
    ensures RequestsOf(nodes) == [nodes[0].request] + RequestsOf(nodes[1..])
  {
    if |nodes| > 1 {
      var body := nodes[..|nodes| - 1];
      RequestsFront(body);
      assert body[1..] == nodes[1..][..|nodes| - 2];
    }
  }

  ghost function First(nodes: seq<Node>): Node? { if nodes == [] then null else nodes[0] }

  ghost function Last(nodes: seq<Node>): Node? { if nodes == [] then null else nodes[|nodes| - 1] }

  ghost function Next(nodes: seq<Node>, i: nat): Node?
    requires i < |nodes|
  {
    if i + 1 < |nodes| then nodes[i + 1] else null
  }

  /** Linked one after another, ending in null, no node twice. */
  ghost predicate Chain(nodes: seq<Node>)
    reads nodes
  {
    && (forall i, j :: 0 <= i < j < |nodes| ==> nodes[i] != nodes[j])
    && (forall i :: 0 <= i < |nodes| ==> nodes[i].next == Next(nodes, i))
  }

  lemma ChainRest(nodes: seq<Node>)
    requires nodes != [] && Chain(nodes)
    ensures Chain(nodes[1..]) && nodes[0].next == First(nodes[1..])
    ensures Last(nodes[1..]) == if |nodes| == 1 then null else Last(nodes)
  {
    var rest := nodes[1..];
    forall i | 0 <= i < |rest|
      ensures rest[i].next == Next(rest, i)
    {
      assert rest[i] == nodes[i + 1];
    }
    assert nodes[0].next == Next(nodes, 0);
  }

  class Queue {
    var head: Node?
    var tail: Node?
    var stopping: bool
    ghost var nodes: seq<Node>

    ghost predicate Valid()
      reads this, nodes
    {
      && Chain(nodes)
      && head == First(nodes)
      && tail == Last(nodes)
    }

    ghost function Contents(): seq<Request>
      reads this
    {
      RequestsOf(nodes)
    }

    constructor ()
      ensures Valid() && Contents() == [] && !stopping
    {
      head, tail, stopping, nodes := null, null, false, [];
    }

    /** enqueue_request once the node is there: refused while stopping. */
    method Enqueue(request: Request) returns (ok: bool)
      requires Valid()
      modifies this, nodes
      ensures Valid() && stopping == old(stopping)
      ensures ok == !stopping
      ensures Contents() == if ok then old(Contents()) + [request] else old(Contents())
      ensures ok ==> fresh(nodes[|nodes| - 1]) && nodes[..|nodes| - 1] == old(nodes)
    {
      var node := new Node(request);
      if stopping {
        return false;
      }
      if tail != null {
        tail.next := node;
      } else {
        head := node;
      }
      tail := node;
      nodes := nodes + [node];
      assert nodes[..|nodes| - 1] == old(nodes);
      assert forall i :: 0 <= i < |nodes| ==> nodes[i].next == Next(nodes, i);
      return true;
    }

    /** The worker's critical section with a request there. */
    method Pop() returns (request: Request)
      requires Valid() && head != null
      modifies this
      ensures Valid() && stopping == old(stopping)
      ensures old(Contents()) == [request] + Contents()
    {
      RequestsFront(nodes);
      ChainRest(nodes);
      var node := head;
      head := node.next;
      if head == null {
        tail := null;
      }
      nodes := nodes[1..];
      request := node.request;
    }

    /** deinit's last loop: the rest of the queue, from the first on. */
    method Drain() returns (freed: seq<Request>)
      requires Valid()
      modifies this
      ensures Valid() && Contents() == [] && stopping == old(stopping)
      ensures freed == old(Contents())
    {
      var node := head;
      ghost var rest := nodes;
      head, tail, nodes := null, null, [];
      freed := [];
      while node != null
        invariant head == null && tail == null && nodes == [] && stopping == old(stopping)
        invariant Chain(rest) && node == First(rest)
        invariant freed + RequestsOf(rest) == old(Contents())
        decreases |rest|
      {
        RequestsFront(rest);
        ChainRest(rest);
        var next := node.next;
        freed := freed + [node.request];
        node := next;
        rest := rest[1..];
      }
    }
  }
}
