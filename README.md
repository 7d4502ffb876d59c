# Neural-network background: graph construction and layout

`script.js` draws an animated neural network on a full-page canvas. This
model covers the part that is not drawing or animation. That part is `init`,
which rebuilds two lists from scratch:

- the neurons, one per slot of every layer of the layer-size array
  `[5, 10, 8, 5]`, created layer by layer and slot by slot;
- the connections `[n1, n2]`, built by walking the neurons in order. For each
  neuron `n1`, `init` filters the neurons of the next layer and, when there are
  any, connects `n1` to the first `min(5, count)` of them in creation order.

It also covers the base position that the `Neuron` constructor gives each
neuron. Both axes keep a 5% margin. Layers are spread evenly across the
remaining width, as columns from the left margin to the right one. The slots
of a layer are spread evenly down the remaining height, with one slot step of
extra margin at the top and at the bottom.

Modules:

- `Layout` (layout.dfy): the base-position arithmetic over `real`, and its
  bounds and spacing lemmas.
- `Network` (network.dfy): the `Neuron` and `Connection` values and the
  functions that say what `init` builds.
  - `Neurons` is the neuron list.
  - `InLayer` is the filter.
  - `Targets` is the slice.
  - `Connections` is the connection list.
- `NetworkProperties` (properties.dfy): what those lists satisfy. This covers:
  - counts;
  - enumeration order, and each slot occurring once;
  - adjacency;
  - fan-out and exactly which neurons are reached;
  - the total number of connections;
  - independence from the viewport;
  - padding bounds.
- `Scene` (scene.dfy): the mutable page state as a class with the two list
  fields. `Init` fills them with the same loops as the source, pushing one
  element at a time. It is proved to leave exactly `Neurons(...)` and
  `Connections(...)` behind.

The model makes these choices:

- The layer sizes are a parameter `layers: seq<nat>`. The page's own `[5, 10, 8, 5]` is the constant `Network.Layers`.
- `|layers| >= 2` is required, because the column step divides by `layers.length - 1`.
- The viewport size `window.innerWidth` / `window.innerHeight` is passed in as `width` / `height`.
- A connection is a pair of neuron values, mirroring the `[n1, n2]` arrays.

`Init`'s postcondition fixes the resulting state as a function of `layers` and
the viewport alone. The lists are cleared first, so calling it twice with the
same viewport gives the same neurons and the same connections.

## Model

| member | source | states |
|---|---|---|
| `Layout.BaseXBounds` | script.js:24-31 | for a non-negative width and any layer `0 <= layer <= layerCount - 1`, `paddingW <= baseX <= width - paddingW` |
| `Layout.BaseYBounds` | script.js:25-32 | for a positive height and any slot `index < totalInLayer`, `paddingH < baseY < height - paddingH` (strictly) |
| `Layout.LayersEvenlySpaced` | script.js:24-31 | layer 0 sits on the left padding, the last layer on the right padding, consecutive layers are `availW / (layerCount - 1)` apart |
| `Layout.SlotsEvenlySpaced` | script.js:25-32 | consecutive slots are `availH / (totalInLayer + 1)` apart, and the gap from the top padding to the first slot equals the gap from the last slot to the bottom padding (one step each) |
| `Layout.FourLayerColumns` | script.js:24-31 | with four layers on a 1000-wide viewport the padding is 50 and the columns are at 50, 350, 650 and 950 |
| `NetworkProperties.LayerNeuronsShape` | script.js:66-68 | the first `i` neurons pushed for layer `l` are exactly `i` neurons, the `t`-th being `new Neuron(l, t, count)` |
| `Network.InLayer` | script.js:73 | the filter keeps at most the neurons it is given, and only neurons of the requested layer |
| `NetworkProperties.EdgesShape` | script.js:79-81 | one connection per target, the `k`-th being `[n1, targets[k]]` |
| `NetworkProperties.NeuronCount` | script.js:65-69 | after `init` the number of neurons is the sum of the layer sizes |
| `NetworkProperties.NeuronsCoverSlots` | script.js:65-68 | every (layer, slot) pair of the configuration has a neuron, at position `offset(layer) + slot`, with that slot's base position |
| `NetworkProperties.NeuronsOrdered` | script.js:65-68 | of any two positions `j < k`, the neuron at `j` is in an earlier layer, or in the same layer at a lower slot, so no (layer, slot) pair occurs twice; the later neuron's layer and slot are in range |
| `NetworkProperties.NeuronsInRange` | script.js:65-68 | every neuron of the list, at any position including the first, has a layer below `|layers|` and a slot below that layer's size |
| `NetworkProperties.NeuronsDistinct` | script.js:65-68 | no neuron occurs twice in the neuron list |
| `NetworkProperties.NeuronsOfLayer` | script.js:73 | filtering the neuron list by layer `m` gives exactly the neurons of layer `m` in slot order, and nothing for a layer beyond the last |
| `NetworkProperties.TargetsInNetwork` | script.js:73-77 | a neuron of layer `l` targets exactly the neurons of layer `l + 1` at slots `0 .. min(5, layers[l + 1]) - 1`, in slot order, and nothing in the last layer |
| `NetworkProperties.NeuronFanOut` | script.js:72-83 | the connections leaving the neuron at any position go, in order, exactly to those expected targets; there are `min(5, layers[l + 1])` of them, never more than 5 nor than the next layer's size; a last-layer neuron has none; the `t`-th has layer `l + 1` and slot `t` |
| `NetworkProperties.ConnectionsAdjacent` | script.js:72-83 | every connection `[n1, n2]` has `n2.layer == n1.layer + 1`, both ends are neurons of the list, and `n2` is in a configured layer |
| `NetworkProperties.ConnectionCount` | script.js:60-84 | the number of connections is the sum over `L < |layers| - 1` of `layers[L] * min(5, layers[L + 1])` |
| `NetworkProperties.ConnectionsIgnoreViewport` | script.js:60-84 | two rebuilds on different viewports give connection lists of the same length that agree at every position on the (layer, slot) of both ends |
| `NetworkProperties.PositionsInsidePadding` | script.js:19-32 | on a positive viewport every neuron of the list lies inside the padding: `paddingW <= baseX <= W - paddingW` and `paddingH < baseY < H - paddingH` |
| `NetworkProperties.PageConfiguration` | script.js:5 | the page's layers `[5, 10, 8, 5]` give 28 neurons and 5*5 + 10*5 + 8*5 = 115 connections |
| `Scene.Scene.constructor` | script.js:3-4 | both lists start empty |
| `Scene.Scene.Init` | script.js:60-84 | after `init` the neuron list is `Neurons(layers, width, height)` and the connection list is `Connections` of it, whatever the lists held before |
| `Scene.Scene.CreateNeurons` | script.js:64-69 | the nested loops leave exactly `Neurons(layers, width, height)` in the emptied neuron list and do not touch the connections |
| `Scene.Scene.CreateConnections` | script.js:71-83 | the loop over the neurons appends exactly `Connections(neurons)` and leaves the neurons unchanged |
| `Scene.Scene.Connect` | script.js:73-82 | one neuron's step appends one connection per target of `Targets`, in order, and nothing when the next layer is empty |
| `Scene.Scene.Resize` | script.js:14 | rebuilding on the page's own layer sizes leaves `Neurons(Layers, width, height)` and its connections |
| `Scene.NextLayer` | script.js:73 | the filter loop returns exactly `InLayer(ns, n1.layer + 1)` |

## Left out

- Canvas and DOM plumbing (script.js:1-2), and the resize handler's device-pixel-ratio, canvas sizing and `ctx.scale` (script.js:7-13, 16). This is host I/O. `Scene.Scene.Resize` only models its call to `init` (script.js:14), with the viewport size as parameters.
- `Neuron.draw` (script.js:49-57) and the body of `animate` (script.js:86-107): clearing the canvas, drawing the edges with gradients, and the `update`/`draw` loop over the neurons. These are canvas drawing calls and per-frame animation.
- The `requestAnimationFrame` loop and the start-up calls (script.js:109, 112-113). This is host scheduling that never terminates.
- The random phase offsets and speed (script.js:34-39), and the sine/cosine motion in `update` (script.js:42-47). These are randomness and trigonometry, and a `Neuron` value has no such fields. `update` advances both offsets by the same `speed`; only their random starting values and sine versus cosine make the two axes differ.
- Floating point. Positions are exact reals, so rounding in the layout formulas is not modelled.
- A reshuffled fan-out and asymmetric padding are not modelled: this `script.js` uses the ordered first-`min(5, n)` selection (script.js:77) and 5% padding on both axes (script.js:24-25).
- `Network.Targets`: the source skips a neuron when its next layer is empty (script.js:75). The function leaves that guard out, because slicing an empty list gives the same empty result. `Scene.Scene.Connect` keeps the guard as written.
