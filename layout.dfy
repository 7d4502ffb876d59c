/**
 Base positions of the neurons, as the `Neuron` constructor computes them.

 Every neuron sits at a fixed point derived once from the viewport size, the
 number of layers, its layer, its slot in the layer and the size of that layer.
 Positions are exact reals: an idealisation of the program's floating point.
 */
module Layout {

  /** The fraction of the viewport kept free on each side, on both axes. */
  const PaddingRatio: real := 0.05

  /** The margin kept free at each end of an axis of the given extent. */
  function Padding(extent: real): real
  {
    extent * PaddingRatio
  }

  /** What is left of an axis once both margins are taken off. */
  function Available(extent: real): real
  {
    extent - Padding(extent) * 2.0
  }

  /** Horizontal distance between two consecutive layers. */
  function LayerStep(width: real, layerCount: nat): real
    requires layerCount >= 2
  {
    Available(width) / (layerCount - 1) as real
  }

  /** Vertical distance between two consecutive slots of a layer of the given size. */
  function SlotStep(height: real, totalInLayer: nat): real
  {
    Available(height) / (totalInLayer + 1) as real
  }

  /** The column of layer `layer` among `layerCount` layers. */
  function BaseX(width: real, layerCount: nat, layer: nat): real
    requires layerCount >= 2
  {
    Padding(width) + layer as real * LayerStep(width, layerCount)
  }

  /** The row of slot `index` in a layer of `totalInLayer` neurons. */
  function BaseY(height: real, totalInLayer: nat, index: nat): real
  {
    Padding(height) + SlotStep(height, totalInLayer) * (index + 1) as real
  }

  /** Every layer's column lies inside the horizontal padding, the end ones on it. */
  lemma BaseXBounds(width: real, layerCount: nat, layer: nat)
    requires 0.0 <= width && layerCount >= 2 && layer <= layerCount - 1
    ensures Padding(width) <= BaseX(width, layerCount, layer) <= width - Padding(width)
  {
    var step := LayerStep(width, layerCount);
    assert step * (layerCount - 1) as real == Available(width);
    assert 0.0 <= step;
    assert layer as real * step <= (layerCount - 1) as real * step;
  }

  /** Every slot's row lies strictly inside the vertical padding. */
  lemma BaseYBounds(height: real, totalInLayer: nat, index: nat)
    requires 0.0 < height && index < totalInLayer
    ensures Padding(height) < BaseY(height, totalInLayer, index) < height - Padding(height)
  {
  }

  /**
   The first layer sits on the left padding, the last on the right padding, and
   consecutive layers are one step apart.
   */
  lemma LayersEvenlySpaced(width: real, layerCount: nat, layer: nat)
    requires layerCount >= 2
    ensures BaseX(width, layerCount, 0) == Padding(width)
    ensures BaseX(width, layerCount, layerCount - 1) == width - Padding(width)
    ensures BaseX(width, layerCount, layer + 1) - BaseX(width, layerCount, layer) == LayerStep(width, layerCount)
  {
  }

  /**
   Consecutive slots are one step apart, and the margin above the first slot
   equals the margin below the last one: both are one step.
   */
  lemma SlotsEvenlySpaced(height: real, totalInLayer: nat, index: nat)
    requires totalInLayer > 0
    ensures BaseY(height, totalInLayer, 0) - Padding(height) == SlotStep(height, totalInLayer)
    ensures (height - Padding(height)) - BaseY(height, totalInLayer, totalInLayer - 1) == SlotStep(height, totalInLayer)
    ensures BaseY(height, totalInLayer, index + 1) - BaseY(height, totalInLayer, index) == SlotStep(height, totalInLayer)
  {
  }

  /** The four columns of a 1000-wide viewport with four layers. */
  lemma FourLayerColumns()
    ensures Padding(1000.0) == 50.0
    ensures BaseX(1000.0, 4, 0) == 50.0 && BaseX(1000.0, 4, 1) == 350.0
    ensures BaseX(1000.0, 4, 2) == 650.0 && BaseX(1000.0, 4, 3) == 950.0
  {
  }
}
