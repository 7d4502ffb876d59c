/**
 The page's mutable state: the neuron list and the connection list that
 `init` rebuilds from scratch, step by step, every time the viewport is resized.
 */
module Scene {
  import opened Network

  class Scene {
    /** The neurons, in creation order. */
    var neurons: seq<Neuron>
    /** The connections `[n1, n2]`, in creation order. */
    var connections: seq<Connection>

    /** The state before the first `init`: both lists empty. */
    constructor()
      ensures neurons == [] && connections == []
    {
      neurons := [];
      connections := [];
    }

    /**
     `init`: empties both lists, pushes one neuron per slot of every layer,
     then, for every neuron in order, filters the neurons of the next layer
     and pushes a connection to each of the first `FanOut` of them.
     */
    method Init(layers: seq<nat>, width: real, height: real)
      requires |layers| >= 2
      modifies this
      ensures neurons == Neurons(layers, width, height)
      ensures connections == Connections(neurons)
    {
      neurons := [];
      connections := [];
      CreateNeurons(layers, width, height);
      CreateConnections();
    }

    /** The `layers.forEach` loop: one `new Neuron(lIndex, i, count)` per slot, layer by layer. */
    method CreateNeurons(layers: seq<nat>, width: real, height: real)
      requires |layers| >= 2 && neurons == []
      modifies this
      ensures neurons == Neurons(layers, width, height)
      ensures connections == old(connections)
    {
      var l := 0;
      while l < |layers|
        invariant 0 <= l <= |layers|
        invariant neurons == NeuronsUpTo(layers, width, height, l)
        invariant connections == old(connections)
      {
        var count := layers[l];
        var i := 0;
        while i < count
          invariant 0 <= i <= count
          invariant neurons == NeuronsUpTo(layers, width, height, l) + LayerNeurons(layers, width, height, l, i)
          invariant connections == old(connections)
        {
          neurons := neurons + [NewNeuron(width, height, |layers|, l, i, count)];
          i := i + 1;
        }
        l := l + 1;
      }
    }

    /** The `neurons.forEach` loop: the connections of every neuron, in neuron order. */
    method CreateConnections()
      modifies this
      ensures neurons == old(neurons)
      ensures connections == old(connections) + Connections(neurons)
    {
      ghost var before := connections;
      var j := 0;
      while j < |neurons|
        invariant 0 <= j <= |neurons|
        invariant neurons == old(neurons)
        invariant connections == before + ConnectionsUpTo(neurons, j)
      {
        Connect(j);
        ConnectionsStep(before, neurons, j);
        j := j + 1;
      }
    }

    /**
     One step of the `neurons.forEach` loop: when the next layer is not empty,
     push `[n1, n2]` for each of its first `FanOut` neurons `n2`.
     */
    method Connect(j: nat)
      requires j < |neurons|
      modifies this
      ensures neurons == old(neurons)
      ensures connections == old(connections) + Edges(neurons[j], Targets(neurons, neurons[j]))
    {
      var n1 := neurons[j];
      var next := NextLayer(neurons, n1);
      ghost var ts := Targets(neurons, n1);
      assert ts == next[..Min(FanOut, |next|)];
      if |next| > 0 {
        var targets := next[..Min(FanOut, |next|)];
        var t := 0;
        while t < |targets|
          invariant 0 <= t <= |targets|
          invariant neurons == old(neurons)
          invariant connections == old(connections) + Edges(n1, targets[..t])
        {
          EdgesStep(old(connections), n1, targets, t);
          connections := connections + [Connection(n1, targets[t])];
          t := t + 1;
        }
        assert targets[..t] == targets;
      } else {
        assert ts == [];
        assert connections == old(connections) + Edges(n1, ts);
      }
    }

    /** `init` as `resize` calls it: the page's own layer sizes on the new viewport. */
    method Resize(width: real, height: real)
      modifies this
      ensures neurons == Neurons(Layers, width, height)
      ensures connections == Connections(neurons)
    {
      Init(Layers, width, height);
    }
  }

  /** Appending the connections of `ns[j]` extends those of the neurons before it. */
  lemma ConnectionsStep(prefix: seq<Connection>, ns: seq<Neuron>, j: nat)
    requires j < |ns|
    ensures prefix + ConnectionsUpTo(ns, j) + Edges(ns[j], Targets(ns, ns[j])) == prefix + ConnectionsUpTo(ns, j + 1)
  {
    assert ConnectionsUpTo(ns, j + 1) == ConnectionsUpTo(ns, j) + Edges(ns[j], Targets(ns, ns[j]));
  }

  /** Pushing `[n1, ts[t]]` extends the connections to the first `t` targets by one. */
  lemma EdgesStep(prefix: seq<Connection>, n1: Neuron, ts: seq<Neuron>, t: nat)
    requires t < |ts|
    ensures prefix + Edges(n1, ts[..t]) + [Connection(n1, ts[t])] == prefix + Edges(n1, ts[..t + 1])
  {
    assert ts[..t + 1][..t] == ts[..t];
  }

  /** `neurons.filter(n2 => n2.layer === n1.layer + 1)`, one neuron at a time. */
  method NextLayer(ns: seq<Neuron>, n1: Neuron) returns (next: seq<Neuron>)
    ensures next == InLayer(ns, n1.layer + 1)
  {
    next := [];
    var m := 0;
    while m < |ns|
      invariant 0 <= m <= |ns|
      invariant next == InLayer(ns[..m], n1.layer + 1)
    {
      assert ns[..m + 1][..m] == ns[..m];
      if ns[m].layer == n1.layer + 1 {
        next := next + [ns[m]];
      }
      m := m + 1;
    }
    assert ns[..m] == ns;
  }
}
