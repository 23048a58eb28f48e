/** A buffered fountain frame, changed in place while blocks are peeled out of it. */
module DecoderNodes {
  import opened Bytes
  import opened Peeling

  class DecoderNode {
    const sequenceNumber: nat
    var degree: int // read by the desktop decoder; the PWA decoder reads the length of the list
    var neighbors: seq<nat>
    var payload: ByteString

    constructor (sequenceNumber: nat, degree: int, neighbors: seq<nat>, payload: ByteString)
      ensures this.sequenceNumber == sequenceNumber && this.degree == degree
      ensures this.neighbors == neighbors && this.payload == payload
    {
      this.sequenceNumber := sequenceNumber;
      this.degree := degree;
      this.neighbors := neighbors;
      this.payload := payload;
    }

    /** XORs a block into the payload, byte by byte. */
    method Absorb(block: ByteString)
      requires |block| == |payload|
      modifies this`payload
      ensures payload == Xor(old(payload), block)
    {
      var i := 0;
      while i < |block|
        invariant 0 <= i <= |block| == |payload|
        invariant payload == Xor(old(payload), block)[..i] + old(payload)[i..]
      {
        payload := payload[i := payload[i] ^ block[i]];
        i := i + 1;
      }
    }

    /** Overwrites the payload with zeros. */
    method Wipe()
      modifies this`payload
      ensures payload == Zeros(|old(payload)|)
    {
      payload := Zeros(|payload|);
    }

    /** XORs a solved block out and drops it from the neighbour list. */
    method Remove(position: nat, block: ByteString)
      requires position < |neighbors| && |block| == |payload|
      modifies this
      ensures Equation(neighbors, payload) == Spliced(old(Equation(neighbors, payload)), position, block)
      ensures degree == old(degree) - 1
    {
      Absorb(block);
      neighbors := neighbors[..position] + neighbors[position + 1..];
      degree := degree - 1;
    }
  }

  /** The table `frames` holds exactly the equations of `graph`, each in a node that knows its own key. */
  ghost predicate Linked(frames: map<nat, DecoderNode>, graph: map<nat, Equation>, nodes: set<DecoderNode>)
    reads nodes
  {
    && frames.Keys == graph.Keys
    && forall s {:trigger frames[s]} :: s in frames ==>
         && frames[s] in nodes && frames[s].sequenceNumber == s
         && frames[s].neighbors == graph[s].left && frames[s].payload == graph[s].value
         && frames[s].degree == |graph[s].left|
  }

  function KeysOf(queue: seq<DecoderNode>): (keys: seq<nat>)
    ensures |keys| == |queue|
    ensures forall i :: 0 <= i < |queue| ==> keys[i] == queue[i].sequenceNumber
  {
    seq(|queue|, i requires 0 <= i < |queue| => queue[i].sequenceNumber)
  }

  /** A queued node is the table's own, or it has been spent. */
  ghost predicate Lined(frames: map<nat, DecoderNode>, queue: seq<DecoderNode>, nodes: set<DecoderNode>)
    reads nodes
  {
    forall i :: 0 <= i < |queue| ==>
      && queue[i] in nodes
      && if queue[i].sequenceNumber in frames then frames[queue[i].sequenceNumber] == queue[i]
        else queue[i].degree == 0 && queue[i].neighbors == []
  }

  /** XORs already known blocks out of a new node and keeps the unknown neighbours. */
  method Eliminate(node: DecoderNode, blocks: seq<Option<ByteString>>)
    requires InRange(node.neighbors, |blocks|)
    requires forall b :: 0 <= b < |blocks| && blocks[b].Some? ==> |blocks[b].value| == |node.payload|
    modifies node
    ensures node.neighbors == Unknown(blocks, old(node.neighbors)) && node.degree == |node.neighbors|
    ensures node.payload == Reduced(blocks, old(node.neighbors), old(node.payload))
  {
    var all := node.neighbors;
    var remaining: seq<nat> := [];
    var i := 0;
    while i < |all|
      invariant 0 <= i <= |all| && node.neighbors == all == old(node.neighbors)
      invariant remaining == Unknown(blocks, all[..i])
      invariant node.payload == Reduced(blocks, all[..i], old(node.payload))
    {
      assert all[..i + 1][..i] == all[..i];
      if blocks[all[i]].Some? {
        node.Absorb(blocks[all[i]].value);
      } else {
        remaining := remaining + [all[i]];
      }
      i := i + 1;
    }
    assert all[..i] == all;
    node.neighbors := remaining;
    node.degree := |remaining|;
  }

  /** The blocks joined, once none is missing. */
  method Concatenate(blocks: seq<Option<ByteString>>, size: nat) returns (joined: ByteString)
    requires forall i :: 0 <= i < |blocks| ==> blocks[i].Some?
    ensures joined == Join(Values(blocks), size)
  {
    hide Join;
    JoinNone(size);
    assert Values(blocks)[..0] == [];
    joined := [];
    var i := 0;
    while i < |blocks|
      invariant 0 <= i <= |blocks| && joined == Join(Values(blocks)[..i], size)
    {
      JoinNext(Values(blocks), i, size);
      joined := joined + blocks[i].value;
      i := i + 1;
    }
    assert Values(blocks)[..i] == Values(blocks);
  }
}
