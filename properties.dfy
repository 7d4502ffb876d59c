/**
 What the graph `init` builds satisfies: the neuron count, the enumeration
 order with each (layer, slot) pair exactly once, adjacency of every
 connection, the fan-out of every neuron and which neurons it reaches, the
 total number of connections, independence of the edge structure from the
 viewport, and the padding bounds of every base position.
 */
module NetworkProperties {
  import opened Layout
  import opened Network

  /** Neuron `n` is at position `k` of the neuron list, with the base position of its slot. */
  ghost predicate WellPlaced(layers: seq<nat>, width: real, height: real, n: Neuron, k: nat)
    requires |layers| >= 2
  {
    && n.layer < |layers|
    && n.index < layers[n.layer]
    && k == Offset(layers, n.layer) + n.index
    && n == NewNeuron(width, height, |layers|, n.layer, n.index, layers[n.layer])
  }

  /** The (layer, slot) identity of the two ends of a connection. */
  function EdgeKey(c: Connection): (nat, nat, nat, nat)
  {
    (c.source.layer, c.source.index, c.target.layer, c.target.index)
  }

  /** The neurons a neuron of layer `l` should reach: the first slots of layer `l + 1`. */
  function ExpectedTargets(layers: seq<nat>, width: real, height: real, l: nat): seq<Neuron>
    requires |layers| >= 2
  {
    if l + 1 < |layers| then LayerNeurons(layers, width, height, l + 1, FanOutOf(layers, l)) else []
  }

  /** The first `i` neurons of layer `l` are `i` neurons, the `t`-th in slot `t`. */
  lemma {:induction false} LayerNeuronsShape(layers: seq<nat>, width: real, height: real, l: nat, i: nat)
    requires |layers| >= 2 && l < |layers|
    ensures |LayerNeurons(layers, width, height, l, i)| == i
    ensures forall t :: 0 <= t < i ==>
      LayerNeurons(layers, width, height, l, i)[t] == NewNeuron(width, height, |layers|, l, t, layers[l])
  {
    if i > 0 {
      LayerNeuronsShape(layers, width, height, l, i - 1);
    }
  }

  /** The expected targets of layer `l` are the first `FanOutOf(layers, l)` slots of layer `l + 1`. */
  lemma ExpectedTargetsShape(layers: seq<nat>, width: real, height: real, l: nat)
    requires |layers| >= 2
    ensures |ExpectedTargets(layers, width, height, l)| == FanOutOf(layers, l)
    ensures forall t :: 0 <= t < |ExpectedTargets(layers, width, height, l)| ==>
      l + 1 < |layers| && ExpectedTargets(layers, width, height, l)[t] == NewNeuron(width, height, |layers|, l + 1, t, layers[l + 1])
  {
    if l + 1 < |layers| {
      LayerNeuronsShape(layers, width, height, l + 1, FanOutOf(layers, l));
    }
  }

  lemma OffsetStep(layers: seq<nat>, l: nat)
    requires l < |layers|
    ensures Offset(layers, l + 1) == Offset(layers, l) + layers[l]
  {
    assert layers[..l + 1][..l] == layers[..l];
  }

  lemma {:induction false} OffsetMonotone(layers: seq<nat>, a: nat, b: nat)
    requires a <= b <= |layers|
    ensures Offset(layers, a) <= Offset(layers, b)
  {
    if a < b {
      OffsetMonotone(layers, a, b - 1);
      OffsetStep(layers, b - 1);
    }
  }

  /** A position in the neuron list determines the layer and the slot. */
  lemma OffsetDecomposition(layers: seq<nat>, a: nat, i: nat, b: nat, j: nat)
    requires a < |layers| && b < |layers| && i < layers[a] && j < layers[b]
    requires Offset(layers, a) + i == Offset(layers, b) + j
    ensures a == b && i == j
  {
    if a < b {
      OffsetStep(layers, a);
      OffsetMonotone(layers, a + 1, b);
    } else if b < a {
      OffsetStep(layers, b);
      OffsetMonotone(layers, b + 1, a);
    }
  }

  lemma OffsetOfAll(layers: seq<nat>)
    ensures Offset(layers, |layers|) == Sum(layers)
  {
    assert layers[..|layers|] == layers;
  }

  lemma {:induction false} NeuronsUpToLength(layers: seq<nat>, width: real, height: real, l: nat)
    requires |layers| >= 2 && l <= |layers|
    ensures |NeuronsUpTo(layers, width, height, l)| == Offset(layers, l)
  {
    if l > 0 {
      NeuronsUpToLength(layers, width, height, l - 1);
      OffsetStep(layers, l - 1);
      LayerNeuronsShape(layers, width, height, l - 1, layers[l - 1]);
    }
  }

  lemma {:induction false} NeuronsUpToShape(layers: seq<nat>, width: real, height: real, l: nat)
    requires |layers| >= 2 && l <= |layers|
    ensures |NeuronsUpTo(layers, width, height, l)| == Offset(layers, l)
    ensures forall k :: 0 <= k < |NeuronsUpTo(layers, width, height, l)| ==>
      WellPlaced(layers, width, height, NeuronsUpTo(layers, width, height, l)[k], k)
  {
    if l > 0 {
      NeuronsUpToShape(layers, width, height, l - 1);
      OffsetStep(layers, l - 1);
      var prev := NeuronsUpTo(layers, width, height, l - 1);
      var last := LayerNeurons(layers, width, height, l - 1, layers[l - 1]);
      LayerNeuronsShape(layers, width, height, l - 1, layers[l - 1]);
      assert NeuronsUpTo(layers, width, height, l) == prev + last;
      forall k | 0 <= k < |prev + last|
        ensures WellPlaced(layers, width, height, (prev + last)[k], k)
      {
        if k >= |prev| {
          assert (prev + last)[k] == last[k - |prev|];
        }
      }
    }
  }

  /** After `init` there is one neuron per entry, summed over all layers. */
  lemma NeuronCount(layers: seq<nat>, width: real, height: real)
    requires |layers| >= 2
    ensures |Neurons(layers, width, height)| == Sum(layers)
  {
    NeuronsUpToShape(layers, width, height, |layers|);
    assert layers[..|layers|] == layers;
  }

  /**
   Every (layer, slot) pair of the configuration has a neuron, at position
   `Offset(layers, l) + i`, placed at the base position of that slot.
   */
  lemma NeuronsCoverSlots(layers: seq<nat>, width: real, height: real, l: nat, i: nat)
    requires |layers| >= 2 && l < |layers| && i < layers[l]
    ensures Offset(layers, l) + i < |Neurons(layers, width, height)|
    ensures Neurons(layers, width, height)[Offset(layers, l) + i] == NewNeuron(width, height, |layers|, l, i, layers[l])
  {
    NeuronsUpToShape(layers, width, height, |layers|);
    OffsetStep(layers, l);
    OffsetMonotone(layers, l + 1, |layers|);
    var n := Neurons(layers, width, height)[Offset(layers, l) + i];
    OffsetDecomposition(layers, n.layer, n.index, l, i);
  }

  /**
   Neurons come in layer order and, inside a layer, in slot order; so no
   (layer, slot) pair occurs twice, and every neuron belongs to a configured slot.
   */
  lemma NeuronsOrdered(layers: seq<nat>, width: real, height: real, j: nat, k: nat)
    requires |layers| >= 2 && j < k < |Neurons(layers, width, height)|
    ensures var ns := Neurons(layers, width, height);
      ns[j].layer < ns[k].layer || (ns[j].layer == ns[k].layer && ns[j].index < ns[k].index)
    ensures var ns := Neurons(layers, width, height);
      ns[k].layer < |layers| && ns[k].index < layers[ns[k].layer]
  {
    var ns := Neurons(layers, width, height);
    NeuronsUpToShape(layers, width, height, |layers|);
    assert WellPlaced(layers, width, height, ns[j], j);
    assert WellPlaced(layers, width, height, ns[k], k);
    if ns[k].layer < ns[j].layer {
      OffsetStep(layers, ns[k].layer);
      OffsetMonotone(layers, ns[k].layer + 1, ns[j].layer);
    }
  }

  /** Every neuron of the list, the first one included, belongs to a configured (layer, slot) pair. */
  lemma NeuronsInRange(layers: seq<nat>, width: real, height: real, k: nat)
    requires |layers| >= 2 && k < |Neurons(layers, width, height)|
    ensures var n := Neurons(layers, width, height)[k];
      n.layer < |layers| && n.index < layers[n.layer]
  {
    NeuronsUpToShape(layers, width, height, |layers|);
    assert WellPlaced(layers, width, height, Neurons(layers, width, height)[k], k);
  }

  lemma NeuronsDistinct(layers: seq<nat>, width: real, height: real)
    requires |layers| >= 2
    ensures var ns := Neurons(layers, width, height);
      forall j, k :: 0 <= j < k < |ns| ==> ns[j] != ns[k]
  {
    NeuronsUpToShape(layers, width, height, |layers|);
  }

  lemma {:induction false} InLayerConcat(a: seq<Neuron>, b: seq<Neuron>, l: nat)
    ensures InLayer(a + b, l) == InLayer(a, l) + InLayer(b, l)
  {
    if b == [] {
      assert a + b == a;
    } else {
      var b' := b[..|b| - 1];
      assert (a + b)[..|a + b| - 1] == a + b';
      InLayerConcat(a, b', l);
    }
  }

  /** Filtering a list whose neurons all lie in layer `l` keeps all of it or nothing. */
  lemma {:induction false} InLayerUniform(s: seq<Neuron>, l: nat, m: nat)
    requires forall k :: 0 <= k < |s| ==> s[k].layer == l
    ensures InLayer(s, m) == if l == m then s else []
  {
    if s != [] {
      var prev := s[..|s| - 1];
      InLayerUniform(prev, l, m);
      assert s == prev + [s[|s| - 1]];
    }
  }

  /** The first `j` of the first `i` neurons of a layer are its first `j` neurons. */
  lemma LayerNeuronsPrefix(layers: seq<nat>, width: real, height: real, l: nat, i: nat, j: nat)
    requires |layers| >= 2 && l < |layers| && j <= i
    ensures |LayerNeurons(layers, width, height, l, i)| == i
    ensures LayerNeurons(layers, width, height, l, i)[..j] == LayerNeurons(layers, width, height, l, j)
  {
    LayerNeuronsShape(layers, width, height, l, i);
    LayerNeuronsShape(layers, width, height, l, j);
    var a, b := LayerNeurons(layers, width, height, l, i)[..j], LayerNeurons(layers, width, height, l, j);
    assert |a| == |b|;
    forall t | 0 <= t < j ensures a[t] == b[t] {
      assert a[t] == LayerNeurons(layers, width, height, l, i)[t];
    }
  }

  /** Filtering `prev + last`, where all of `last` lies in layer `l`. */
  lemma InLayerSplit(prev: seq<Neuron>, last: seq<Neuron>, l: nat, m: nat)
    requires forall k :: 0 <= k < |last| ==> last[k].layer == l
    ensures InLayer(prev + last, m) == InLayer(prev, m) + (if l == m then last else [])
  {
    InLayerConcat(prev, last, m);
    InLayerUniform(last, l, m);
  }

  lemma {:induction false} InLayerOfNeuronsUpTo(layers: seq<nat>, width: real, height: real, l: nat, m: nat)
    requires |layers| >= 2 && l <= |layers|
    ensures InLayer(NeuronsUpTo(layers, width, height, l), m)
      == if m < l then LayerNeurons(layers, width, height, m, layers[m]) else []
  {
    if l > 0 {
      var prev := NeuronsUpTo(layers, width, height, l - 1);
      var last := LayerNeurons(layers, width, height, l - 1, layers[l - 1]);
      assert NeuronsUpTo(layers, width, height, l) == prev + last;
      InLayerOfNeuronsUpTo(layers, width, height, l - 1, m);
      LayerNeuronsShape(layers, width, height, l - 1, layers[l - 1]);
      ghost var before := if m < l - 1 then LayerNeurons(layers, width, height, m, layers[m]) else [];
      InLayerStep(NeuronsUpTo(layers, width, height, l), prev, last, l - 1, m, before);
      if m < l - 1 {
        assert before + [] == before;
      } else if m == l - 1 {
        assert before + last == last;
      } else {
        assert before + [] == [];
      }
    }
  }

  lemma InLayerStep(s: seq<Neuron>, prev: seq<Neuron>, last: seq<Neuron>, l: nat, m: nat, before: seq<Neuron>)
    requires s == prev + last && InLayer(prev, m) == before
    requires forall k :: 0 <= k < |last| ==> last[k].layer == l
    ensures InLayer(s, m) == before + (if l == m then last else [])
  {
    InLayerSplit(prev, last, l, m);
  }

  /** Filtering the neuron list by layer gives that layer's neurons, in slot order. */
  lemma NeuronsOfLayer(layers: seq<nat>, width: real, height: real, m: nat)
    requires |layers| >= 2
    ensures InLayer(Neurons(layers, width, height), m)
      == if m < |layers| then LayerNeurons(layers, width, height, m, layers[m]) else []
  {
    InLayerOfNeuronsUpTo(layers, width, height, |layers|, m);
  }

  /**
   A neuron of layer `l` targets exactly the first `min(FanOut, layers[l + 1])`
   neurons of layer `l + 1`, in slot order, and nothing when `l` is the last layer.
   */
  lemma TargetsInNetwork(layers: seq<nat>, width: real, height: real, n: Neuron)
    requires |layers| >= 2
    ensures Targets(Neurons(layers, width, height), n) == ExpectedTargets(layers, width, height, n.layer)
  {
    var ns := Neurons(layers, width, height);
    var next := InLayer(ns, n.layer + 1);
    NeuronsOfLayer(layers, width, height, n.layer + 1);
    assert Targets(ns, n) == next[..Min(FanOut, |next|)];
    if n.layer + 1 < |layers| {
      var full := layers[n.layer + 1];
      assert next == LayerNeurons(layers, width, height, n.layer + 1, full);
      LayerNeuronsShape(layers, width, height, n.layer + 1, full);
      assert Min(FanOut, |next|) == FanOutOf(layers, n.layer);
      LayerNeuronsPrefix(layers, width, height, n.layer + 1, full, FanOutOf(layers, n.layer));
    } else {
      assert next == [];
    }
  }

  /**
   The connections from each `srcs[i]`, `i < m`, to the neurons of `tss[i]`, in
   order. With `tss` the target lists of `ns` this is `ConnectionsUpTo(ns, m)`;
   proofs go through it so that they need not look inside `Targets`.
   */
  function Link(srcs: seq<Neuron>, tss: seq<seq<Neuron>>, m: nat): seq<Connection>
    requires m <= |srcs| && |tss| == |srcs|
  {
    if m == 0 then [] else Link(srcs, tss, m - 1) + Edges(srcs[m - 1], tss[m - 1])
  }

  /** The targets of every neuron of `ns`, position by position. */
  function TargetLists(ns: seq<Neuron>): seq<seq<Neuron>>
  {
    seq(|ns|, i requires 0 <= i < |ns| => Targets(ns, ns[i]))
  }

  /** The number of neurons in the first `m` lists of `tss`. */
  function TotalLength(tss: seq<seq<Neuron>>, m: nat): nat
    requires m <= |tss|
  {
    if m == 0 then 0 else TotalLength(tss, m - 1) + |tss[m - 1]|
  }

  /** Two neuron lists agree position by position on layer and slot. */
  ghost predicate SameSlots(a: seq<Neuron>, b: seq<Neuron>)
  {
    |a| == |b| && forall t :: 0 <= t < |a| ==> a[t].layer == b[t].layer && a[t].index == b[t].index
  }

  lemma {:induction false} ConnectionsAsLink(ns: seq<Neuron>, m: nat)
    requires m <= |ns|
    ensures ConnectionsUpTo(ns, m) == Link(ns, TargetLists(ns), m)
  {
    if m > 0 {
      var tss := TargetLists(ns);
      ConnectionsAsLink(ns, m - 1);
      assert tss[m - 1] == Targets(ns, ns[m - 1]);
    }
  }

  /** One connection per target, the `k`-th from `n1` to `ts[k]`. */
  lemma {:induction false} EdgesShape(n1: Neuron, ts: seq<Neuron>)
    ensures |Edges(n1, ts)| == |ts|
    ensures forall k :: 0 <= k < |ts| ==> Edges(n1, ts)[k] == Connection(n1, ts[k])
  {
    if ts != [] {
      EdgesShape(n1, ts[..|ts| - 1]);
    }
  }

  lemma {:induction false} OutgoingConcat(a: seq<Connection>, b: seq<Connection>, n: Neuron)
    ensures Outgoing(a + b, n) == Outgoing(a, n) + Outgoing(b, n)
  {
    if b == [] {
      assert a + b == a;
    } else {
      var b' := b[..|b| - 1];
      assert (a + b)[..|a + b| - 1] == a + b';
      OutgoingConcat(a, b', n);
    }
  }

  lemma {:induction false} OutgoingOfEdges(m: Neuron, ts: seq<Neuron>, n: Neuron)
    ensures Outgoing(Edges(m, ts), n) == if m == n then ts else []
  {
    if ts != [] {
      var ts' := ts[..|ts| - 1];
      EdgesShape(m, ts');
      assert Edges(m, ts)[..|ts| - 1] == Edges(m, ts');
      OutgoingOfEdges(m, ts', n);
      assert ts' + [ts[|ts| - 1]] == ts;
    }
  }

  lemma OutgoingStep(prev: seq<Connection>, source: Neuron, ts: seq<Neuron>, n: Neuron)
    ensures Outgoing(prev + Edges(source, ts), n) == Outgoing(prev, n) + (if source == n then ts else [])
  {
    OutgoingConcat(prev, Edges(source, ts), n);
    OutgoingOfEdges(source, ts, n);
  }

  /** Sources before `srcs[k]` contribute nothing leaving it when it occurs once. */
  lemma {:induction false} OutgoingOfLater(srcs: seq<Neuron>, tss: seq<seq<Neuron>>, m: nat, k: nat)
    requires m <= k < |srcs| && |tss| == |srcs|
    requires forall i :: 0 <= i < |srcs| && i != k ==> srcs[i] != srcs[k]
    ensures Outgoing(Link(srcs, tss, m), srcs[k]) == []
  {
    if m > 0 {
      OutgoingOfLater(srcs, tss, m - 1, k);
      OutgoingStep(Link(srcs, tss, m - 1), srcs[m - 1], tss[m - 1], srcs[k]);
    }
  }

  /** When `srcs[k]` occurs once, the connections leaving it go exactly to `tss[k]`. */
  lemma {:induction false} OutgoingOfEarlier(srcs: seq<Neuron>, tss: seq<seq<Neuron>>, m: nat, k: nat)
    requires k < m <= |srcs| && |tss| == |srcs|
    requires forall i :: 0 <= i < |srcs| && i != k ==> srcs[i] != srcs[k]
    ensures Outgoing(Link(srcs, tss, m), srcs[k]) == tss[k]
  {
    OutgoingStep(Link(srcs, tss, m - 1), srcs[m - 1], tss[m - 1], srcs[k]);
    if k == m - 1 {
      OutgoingOfLater(srcs, tss, m - 1, k);
    } else {
      OutgoingOfEarlier(srcs, tss, m - 1, k);
    }
  }

  lemma {:induction false} LinkLength(srcs: seq<Neuron>, tss: seq<seq<Neuron>>, m: nat)
    requires m <= |srcs| && |tss| == |srcs|
    ensures |Link(srcs, tss, m)| == TotalLength(tss, m)
  {
    if m > 0 {
      LinkLength(srcs, tss, m - 1);
      EdgesShape(srcs[m - 1], tss[m - 1]);
    }
  }

  /** Every connection of `Link` goes from some `srcs[j]` to a member of `tss[j]`. */
  lemma {:induction false} LinkMember(srcs: seq<Neuron>, tss: seq<seq<Neuron>>, m: nat, i: nat)
    requires m <= |srcs| && |tss| == |srcs| && i < |Link(srcs, tss, m)|
    ensures exists j, t :: 0 <= j < m && 0 <= t < |tss[j]| && Link(srcs, tss, m)[i] == Connection(srcs[j], tss[j][t])
  {
    var prev := Link(srcs, tss, m - 1);
    var last := Edges(srcs[m - 1], tss[m - 1]);
    assert Link(srcs, tss, m) == prev + last;
    if i < |prev| {
      LinkMember(srcs, tss, m - 1, i);
      assert Link(srcs, tss, m)[i] == prev[i];
    } else {
      EdgesShape(srcs[m - 1], tss[m - 1]);
      assert Link(srcs, tss, m)[i] == last[i - |prev|];
    }
  }

  lemma {:induction false} LinkSameSlots(s1: seq<Neuron>, t1: seq<seq<Neuron>>, s2: seq<Neuron>, t2: seq<seq<Neuron>>, m: nat)
    requires |t1| == |s1| && |t2| == |s2| && m <= |s1|
    requires SameSlots(s1, s2)
    requires forall k :: 0 <= k < |t1| ==> SameSlots(t1[k], t2[k])
    ensures |Link(s1, t1, m)| == |Link(s2, t2, m)|
    ensures forall i :: 0 <= i < |Link(s1, t1, m)| ==> EdgeKey(Link(s1, t1, m)[i]) == EdgeKey(Link(s2, t2, m)[i])
  {
    if m > 0 {
      LinkSameSlots(s1, t1, s2, t2, m - 1);
      var p1, p2 := Link(s1, t1, m - 1), Link(s2, t2, m - 1);
      var e1, e2 := Edges(s1[m - 1], t1[m - 1]), Edges(s2[m - 1], t2[m - 1]);
      assert SameSlots(t1[m - 1], t2[m - 1]);
      EdgesShape(s1[m - 1], t1[m - 1]);
      EdgesShape(s2[m - 1], t2[m - 1]);
      assert Link(s1, t1, m) == p1 + e1 && Link(s2, t2, m) == p2 + e2;
      forall i | 0 <= i < |p1 + e1| ensures EdgeKey((p1 + e1)[i]) == EdgeKey((p2 + e2)[i]) {
        if i >= |p1| {
          assert (p1 + e1)[i] == e1[i - |p1|];
          assert (p2 + e2)[i] == e2[i - |p2|];
        }
      }
    }
  }

  lemma ConnectionsLength(ns: seq<Neuron>)
    ensures |Connections(ns)| == TotalLength(TargetLists(ns), |ns|)
  {
    ConnectionsAsLink(ns, |ns|);
    LinkLength(ns, TargetLists(ns), |ns|);
  }

  lemma ConnectionsMember(ns: seq<Neuron>, i: nat)
    requires i < |Connections(ns)|
    ensures exists j, t :: (0 <= j < |ns| && 0 <= t < |TargetLists(ns)[j]| &&
      Connections(ns)[i] == Connection(ns[j], TargetLists(ns)[j][t]))
  {
    ConnectionsAsLink(ns, |ns|);
    LinkMember(ns, TargetLists(ns), |ns|, i);
  }

  /**
   After `init`, the neuron at position `k` connects exactly to the first
   `min(FanOut, layers[l + 1])` neurons of the next layer, in slot order; that
   is never more than `FanOut` nor than the next layer's size; a neuron of the
   last layer has no connection at all.
   */
  lemma NeuronFanOut(layers: seq<nat>, width: real, height: real, k: nat)
    requires |layers| >= 2 && k < |Neurons(layers, width, height)|
    ensures var ns := Neurons(layers, width, height);
      Outgoing(Connections(ns), ns[k]) == ExpectedTargets(layers, width, height, ns[k].layer)
    ensures var ns := Neurons(layers, width, height);
      var out := Outgoing(Connections(ns), ns[k]);
      && |out| == FanOutOf(layers, ns[k].layer)
      && |out| <= FanOut
      && (ns[k].layer + 1 < |layers| ==> |out| <= layers[ns[k].layer + 1])
      && (ns[k].layer + 1 == |layers| ==> out == [])
      && forall t :: 0 <= t < |out| ==> out[t].layer == ns[k].layer + 1 && out[t].index == t
  {
    var ns := Neurons(layers, width, height);
    NeuronsDistinct(layers, width, height);
    NeuronsUpToShape(layers, width, height, |layers|);
    assert WellPlaced(layers, width, height, ns[k], k);
    ConnectionsAsLink(ns, |ns|);
    OutgoingOfEarlier(ns, TargetLists(ns), |ns|, k);
    TargetsInNetwork(layers, width, height, ns[k]);
    ExpectedTargetsShape(layers, width, height, ns[k].layer);
  }

  /** Each expected target of layer `l` is a neuron of the network, in layer `l + 1`. */
  lemma ExpectedTargetInNetwork(layers: seq<nat>, width: real, height: real, l: nat, t: nat)
    requires |layers| >= 2 && t < |ExpectedTargets(layers, width, height, l)|
    ensures l + 1 < |layers|
    ensures ExpectedTargets(layers, width, height, l)[t].layer == l + 1
    ensures ExpectedTargets(layers, width, height, l)[t] in Neurons(layers, width, height)
  {
    ExpectedTargetsShape(layers, width, height, l);
    NeuronsCoverSlots(layers, width, height, l + 1, t);
  }

  /** Every connection joins a neuron to one of the very next layer; no edge leaves the last layer. */
  lemma ConnectionsAdjacent(layers: seq<nat>, width: real, height: real, i: nat)
    requires |layers| >= 2
    requires i < |Connections(Neurons(layers, width, height))|
    ensures var ns := Neurons(layers, width, height);
      var c := Connections(ns)[i];
      && c.target.layer == c.source.layer + 1
      && c.source in ns && c.target in ns
      && c.target.layer < |layers|
  {
    var ns := Neurons(layers, width, height);
    var tss := TargetLists(ns);
    ConnectionsMember(ns, i);
    var j, t :| 0 <= j < |ns| && 0 <= t < |tss[j]| && Connections(ns)[i] == Connection(ns[j], tss[j][t]);
    TargetsInNetwork(layers, width, height, ns[j]);
    assert tss[j] == ExpectedTargets(layers, width, height, ns[j].layer);
    ExpectedTargetInNetwork(layers, width, height, ns[j].layer, t);
  }

  /** The neuron in slot `i` of layer `l` has `FanOutOf(layers, l)` targets. */
  lemma TargetListLength(layers: seq<nat>, width: real, height: real, l: nat, i: nat)
    requires |layers| >= 2 && l < |layers| && i < layers[l]
    ensures DegreeAt(layers, TargetLists(Neurons(layers, width, height)), l, i)
  {
    var ns := Neurons(layers, width, height);
    NeuronsCoverSlots(layers, width, height, l, i);
    TargetsInNetwork(layers, width, height, ns[Offset(layers, l) + i]);
    ExpectedTargetsShape(layers, width, height, l);
  }

  /** The list at the position of slot `i` of layer `l` has `FanOutOf(layers, l)` entries. */
  ghost predicate DegreeAt(layers: seq<nat>, tss: seq<seq<Neuron>>, l: nat, i: nat)
    requires l < |layers|
  {
    Offset(layers, l) + i < |tss| && |tss[Offset(layers, l) + i]| == FanOutOf(layers, l)
  }

  lemma {:induction false} CountByLayer(layers: seq<nat>, tss: seq<seq<Neuron>>, l: nat, i: nat)
    requires l < |layers| && i <= layers[l] && |tss| == Offset(layers, |layers|)
    requires forall l': nat, i': nat :: l' < |layers| && i' < layers[l'] ==> DegreeAt(layers, tss, l', i')
    ensures Offset(layers, l) + i <= |tss|
    ensures TotalLength(tss, Offset(layers, l) + i) == ConnectionCountUpTo(layers, l) + i * FanOutOf(layers, l)
  {
    OffsetStep(layers, l);
    OffsetMonotone(layers, l + 1, |layers|);
    if i == 0 {
      if l > 0 {
        CountByLayer(layers, tss, l - 1, layers[l - 1]);
        OffsetStep(layers, l - 1);
      }
    } else {
      CountByLayer(layers, tss, l, i - 1);
      assert DegreeAt(layers, tss, l, i - 1);
      assert (i - 1) * FanOutOf(layers, l) + FanOutOf(layers, l) == i * FanOutOf(layers, l);
    }
  }

  /** Every slot's list in the target lists of the network has the fan-out of its layer. */
  lemma TargetListsDegrees(layers: seq<nat>, width: real, height: real)
    requires |layers| >= 2
    ensures var tss := TargetLists(Neurons(layers, width, height));
      forall l: nat, i: nat :: l < |layers| && i < layers[l] ==> DegreeAt(layers, tss, l, i)
  {
    forall l: nat, i: nat | l < |layers| && i < layers[l]
      ensures DegreeAt(layers, TargetLists(Neurons(layers, width, height)), l, i)
    {
      TargetListLength(layers, width, height, l, i);
    }
  }

  /** Lists with the fan-out of their slot's layer hold `ConnectionCountUpTo` neurons in all. */
  lemma CountOfLists(layers: seq<nat>, tss: seq<seq<Neuron>>)
    requires |layers| >= 2 && |tss| == Sum(layers)
    requires forall l': nat, i': nat :: l' < |layers| && i' < layers[l'] ==> DegreeAt(layers, tss, l', i')
    ensures TotalLength(tss, |tss|) == ConnectionCountUpTo(layers, |layers| - 1)
  {
    var last := |layers| - 1;
    OffsetOfAll(layers);
    OffsetStep(layers, last);
    CountByLayer(layers, tss, last, layers[last]);
  }
  /**
   `init` builds `sum over L < |layers| - 1 of layers[L] * min(FanOut, layers[L + 1])`
   connections in all.
   */
  lemma ConnectionCount(layers: seq<nat>, width: real, height: real)
    requires |layers| >= 2
    ensures |Connections(Neurons(layers, width, height))| == ConnectionCountUpTo(layers, |layers| - 1)
  {
    var ns := Neurons(layers, width, height);
    NeuronsUpToLength(layers, width, height, |layers|);
    OffsetOfAll(layers);
    TargetListsDegrees(layers, width, height);
    CountOfLists(layers, TargetLists(ns));
    ConnectionsLength(ns);
  }

  /**
   Which (layer, slot) reaches which (layer, slot), and in what order, does not
   depend on the viewport: rebuilding after a resize gives the same edge structure.
   */
  lemma ConnectionsIgnoreViewport(layers: seq<nat>, w1: real, h1: real, w2: real, h2: real)
    requires |layers| >= 2
    ensures var c1 := Connections(Neurons(layers, w1, h1));
      var c2 := Connections(Neurons(layers, w2, h2));
      |c1| == |c2| && forall i :: 0 <= i < |c1| ==> EdgeKey(c1[i]) == EdgeKey(c2[i])
  {
    var ns1, ns2 := Neurons(layers, w1, h1), Neurons(layers, w2, h2);
    NeuronsUpToShape(layers, w1, h1, |layers|);
    NeuronsUpToShape(layers, w2, h2, |layers|);
    forall k | 0 <= k < |ns1| ensures ns1[k].layer == ns2[k].layer && ns1[k].index == ns2[k].index {
      assert WellPlaced(layers, w1, h1, ns1[k], k);
      assert WellPlaced(layers, w2, h2, ns2[k], k);
      OffsetDecomposition(layers, ns1[k].layer, ns1[k].index, ns2[k].layer, ns2[k].index);
    }
    var t1, t2 := TargetLists(ns1), TargetLists(ns2);
    forall k | 0 <= k < |t1| ensures SameSlots(t1[k], t2[k]) {
      TargetsInNetwork(layers, w1, h1, ns1[k]);
      TargetsInNetwork(layers, w2, h2, ns2[k]);
      ExpectedTargetsShape(layers, w1, h1, ns1[k].layer);
      ExpectedTargetsShape(layers, w2, h2, ns2[k].layer);
    }
    ConnectionsAsLink(ns1, |ns1|);
    ConnectionsAsLink(ns2, |ns2|);
    LinkSameSlots(ns1, t1, ns2, t2, |ns1|);
  }

  /** Every neuron's base position lies inside the padded viewport. */
  lemma PositionsInsidePadding(layers: seq<nat>, width: real, height: real, k: nat)
    requires |layers| >= 2 && 0.0 < width && 0.0 < height
    requires k < |Neurons(layers, width, height)|
    ensures var n := Neurons(layers, width, height)[k];
      && Padding(width) <= n.baseX <= width - Padding(width)
      && Padding(height) < n.baseY < height - Padding(height)
  {
    NeuronsUpToShape(layers, width, height, |layers|);
    var n := Neurons(layers, width, height)[k];
    assert WellPlaced(layers, width, height, n, k);
    BaseXBounds(width, |layers|, n.layer);
    BaseYBounds(height, layers[n.layer], n.index);
  }

  /** The page's own configuration: 28 neurons and 5*5 + 10*5 + 8*5 = 115 connections. */
  lemma PageConfiguration(width: real, height: real)
    ensures |Neurons(Layers, width, height)| == 28
    ensures |Connections(Neurons(Layers, width, height))| == 115
  {
    NeuronCount(Layers, width, height);
    ConnectionCount(Layers, width, height);
    var s1, s2, s3 := [5], [5, 10], [5, 10, 8];
    assert s1[..0] == [] && s2[..1] == s1 && s3[..2] == s2 && Layers[..3] == s3;
    assert Sum(s1) == 5 && Sum(s2) == 15 && Sum(s3) == 23;
    assert ConnectionCountUpTo(Layers, 1) == 25 && ConnectionCountUpTo(Layers, 2) == 75;
  }
}
