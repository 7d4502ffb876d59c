/**
 The graph that `init` builds: one neuron per (layer, slot) pair, enumerated
 layer by layer, and for every neuron a connection to each of the first
 `FanOut` neurons of the next layer, in creation order.

 The functions here are the specification the imperative `Scene.Init` is
 proved against; NetworkProperties proves what they promise.
 */
module Network {
  import opened Layout

  /** The layer sizes the page is configured with. */
  const Layers: seq<nat> := [5, 10, 8, 5]

  /** The most connections a neuron makes into the next layer. */
  const FanOut: nat := 5

  /** A neuron without its random motion fields (phase offsets and speed). */
  datatype Neuron = Neuron(layer: nat, index: nat, baseX: real, baseY: real)

  /** An edge `[n1, n2]` from a neuron to one of the next layer. */
  datatype Connection = Connection(source: Neuron, target: Neuron)

  function Min(a: nat, b: nat): nat
  {
    if a <= b then a else b
  }

  /** The `Neuron` constructor: identity plus the base position of its slot. */
  function NewNeuron(width: real, height: real, layerCount: nat, layer: nat, index: nat, totalInLayer: nat): Neuron
    requires layerCount >= 2
  {
    Neuron(layer, index, BaseX(width, layerCount, layer), BaseY(height, totalInLayer, index))
  }

  function Sum(s: seq<nat>): nat
  {
    if s == [] then 0 else Sum(s[..|s| - 1]) + s[|s| - 1]
  }

  /** The number of neurons created before the first one of layer `l`. */
  function Offset(layers: seq<nat>, l: nat): nat
    requires l <= |layers|
  {
    Sum(layers[..l])
  }

  /** The first `i` neurons of layer `l`, in slot order. */
  function LayerNeurons(layers: seq<nat>, width: real, height: real, l: nat, i: nat): seq<Neuron>
    requires |layers| >= 2 && l < |layers|
  {
    if i == 0 then []
    else LayerNeurons(layers, width, height, l, i - 1) + [NewNeuron(width, height, |layers|, l, i - 1, layers[l])]
  }

  /** Every neuron of the layers before `l`, in creation order. */
  function NeuronsUpTo(layers: seq<nat>, width: real, height: real, l: nat): seq<Neuron>
    requires |layers| >= 2 && l <= |layers|
  {
    if l == 0 then []
    else NeuronsUpTo(layers, width, height, l - 1) + LayerNeurons(layers, width, height, l - 1, layers[l - 1])
  }

  /** The neuron list `init` leaves behind. */
  function Neurons(layers: seq<nat>, width: real, height: real): seq<Neuron>
    requires |layers| >= 2
  {
    NeuronsUpTo(layers, width, height, |layers|)
  }

  /** `s.filter(n => n.layer === l)`: the neurons of `s` in layer `l`, in order. */
  function InLayer(s: seq<Neuron>, l: nat): (r: seq<Neuron>)
    ensures |r| <= |s|
    ensures forall k :: 0 <= k < |r| ==> r[k].layer == l
  {
    if s == [] then []
    else InLayer(s[..|s| - 1], l) + (if s[|s| - 1].layer == l then [s[|s| - 1]] else [])
  }

  /**
   The neurons `n1` connects to: the first `FanOut` neurons of the next layer
   in `ns`. When that layer is empty this is empty too, as the source's
   emptiness guard makes it.
   */
  function Targets(ns: seq<Neuron>, n1: Neuron): seq<Neuron>
  {
    var next := InLayer(ns, n1.layer + 1);
    next[..Min(FanOut, |next|)]
  }

  /** One connection from `n1` to each of `ts`, in the order of `ts`. */
  function Edges(n1: Neuron, ts: seq<Neuron>): seq<Connection>
  {
    if ts == [] then [] else Edges(n1, ts[..|ts| - 1]) + [Connection(n1, ts[|ts| - 1])]
  }

  /** The connections of the first `k` neurons of `ns`, each to its targets in `ns`. */
  function ConnectionsUpTo(ns: seq<Neuron>, k: nat): seq<Connection>
    requires k <= |ns|
  {
    if k == 0 then []
    else ConnectionsUpTo(ns, k - 1) + Edges(ns[k - 1], Targets(ns, ns[k - 1]))
  }

  /** The connection list `init` builds from the neuron list `ns`. */
  function Connections(ns: seq<Neuron>): seq<Connection>
  {
    ConnectionsUpTo(ns, |ns|)
  }

  /** The targets of the connections in `cs` that leave `n`, in order. */
  function Outgoing(cs: seq<Connection>, n: Neuron): seq<Neuron>
  {
    if cs == [] then []
    else Outgoing(cs[..|cs| - 1], n) + (if cs[|cs| - 1].source == n then [cs[|cs| - 1].target] else [])
  }

  /** How many connections a neuron of layer `l` makes. */
  function FanOutOf(layers: seq<nat>, l: nat): nat
  {
    if l + 1 < |layers| then Min(FanOut, layers[l + 1]) else 0
  }

  /** The sum over the layers `L` before `l` of `layers[L] * min(FanOut, layers[L + 1])`. */
  function ConnectionCountUpTo(layers: seq<nat>, l: nat): nat
    requires l < |layers|
  {
    if l == 0 then 0
    else ConnectionCountUpTo(layers, l - 1) + layers[l - 1] * Min(FanOut, layers[l])
  }
}
