// Which snapshots come back exactly as they were saved.

module ExactRoundTrip {
  import opened Types
  import opened Doubles
  import opened Snapshots
  import opened JsonGrammar
  import opened Loading
  import opened DocumentRoundTrip
  import opened SnapshotRoundTrip

  // ---- Real numbers --------------------------------------------------------------------------

  function Absolute(x: real): real {
    if x < 0.0 then -x else x
  }

  predicate Whole(x: real) {
    x.Floor as real == x
  }

  // Six decimals are enough, and an integer fits 64 bits; or it stands for infinity.
  predicate KeptMeasure(x: real) {
    Absolute(x) == OVERFLOW
    || (Absolute(x) < OVERFLOW && SixPlaced(x) && (Whole(x) ==> -(MAX_INT64 as real) - 1.0 <= x <= MAX_INT64 as real))
  }

  // The same for a property, which must not become an integer.
  predicate KeptDouble(x: real) {
    Absolute(x) == OVERFLOW || (Absolute(x) < OVERFLOW && SixPlaced(x) && !Whole(x))
  }

  lemma PlacedInMicros(x: real, size: Magnitude)
    requires size == Absolute(x)
    ensures SixPlaced(x) <==> size == Micros(size) as real / 1_000_000.0
    ensures SixPlaced(x) ==> (Whole(x) <==> Micros(size) % MILLION == 0)
  {
    hide Micros, SixPlaced, Whole;
    var n: int := Micros(size);
    MicrosHaveSixPlaces(if x < 0.0 then -n else n);
    if SixPlaced(x) {
      SixPlacedInMicros(x, size);
      WholeInMicros(x, if x < 0.0 then -n else n);
    }
  }

  lemma WholeInMicros(x: real, n: int)
    requires x == n as real / 1_000_000.0
    ensures Whole(x) <==> n % MILLION == 0
  {
    var f := x.Floor;
    assert n as real == x * 1_000_000.0;
    if Whole(x) {
      assert n as real == (f * MILLION) as real;
      assert n == f * MILLION;
    }
    if n % MILLION == 0 {
      assert x == (n / MILLION) as real;
    }
  }

  lemma WholeComesBack(x: real, size: Magnitude)
    requires size == Absolute(x) && Micros(size) % MILLION == 0
    ensures SavedReal(x) == x <==> SixPlaced(x) && -(MAX_INT64 as real) - 1.0 <= x <= MAX_INT64 as real
    ensures NormProperty(DoubleProperty(x)) != DoubleProperty(x)
  {
    hide Micros, SixPlaced;
    PlacedInMicros(x, size);
    WholeMicros(Micros(size));
    IntegerIsSixPlaced(x.Floor);
  }

  lemma IntegerIsSixPlaced(i: int)
    ensures SixPlaced(i as real)
  {
    IntegerMicros(i, i * 1_000_000);
    FloorIs(i as real * 1_000_000.0, i * 1_000_000);
  }

  lemma FloorIs(y: real, n: int)
    requires y == n as real
    ensures y.Floor as real == y
  {
  }

  lemma IntegerMicros(i: int, n: int)
    requires n == i * 1_000_000
    ensures n as real == i as real * 1_000_000.0
  {
  }

  lemma FractionComesBack(x: real, size: Magnitude)
    requires size == Absolute(x) && Micros(size) % MILLION != 0
    ensures SavedReal(x) == x <==> SixPlaced(x)
    ensures NormProperty(DoubleProperty(x)) == DoubleProperty(x) <==> SixPlaced(x)
  {
    hide Micros, SixPlaced;
    PlacedInMicros(x, size);
    RoundedIsFinite(size);
  }

  lemma MeasureIsKept(x: real)
    ensures SavedReal(x) == x <==> KeptMeasure(x)
    ensures NormProperty(DoubleProperty(x)) == DoubleProperty(x) <==> KeptDouble(x)
  {
    hide Micros, SixPlaced, Whole;
    if Absolute(x) < OVERFLOW {
      hide SavedReal, NormProperty;
      var size: Magnitude := Absolute(x);
      PlacedInMicros(x, size);
      if Micros(size) % MILLION == 0 {
        WholeComesBack(x, size);
      } else {
        FractionComesBack(x, size);
      }
    }
  }

  // ---- Snapshots ---------------------------------------------------------------------------------

  // A signed number must be negative, and a double must keep its decimals.
  predicate KeptProperty(p: PropertyValue) {
    match p
    case IntProperty(i) => i < 0
    case DoubleProperty(d) => KeptDouble(d)
    case _ => true
  }

  ghost predicate KeptProperties(m: PropertyMap) {
    forall k :: k in m ==> KeptProperty(m[k])
  }

  ghost predicate KeptEdge(e: Edge) {
    && KeptProperties(e.properties) && (e.bandwidth.Some? ==> KeptMeasure(e.bandwidth.value))
    && (e.latency.Some? ==> KeptMeasure(e.latency.value)) && (e.localityScore.Some? ==> KeptMeasure(e.localityScore.value))
  }

  lemma PropertiesAreKept(m: PropertyMap)
    ensures NormProperties(m) == m <==> KeptProperties(m)
  {
    hide NormProperty, KeptProperty;
    forall k | k in m
      ensures NormProperty(m[k]) == m[k] <==> KeptProperty(m[k])
    {
      PropertyIsKept(m[k]);
    }
    if NormProperties(m) == m {
      forall k | k in m
        ensures KeptProperty(m[k])
      {
        assert NormProperties(m)[k] == NormProperty(m[k]);
      }
    }
  }

  lemma PropertyIsKept(p: PropertyValue)
    ensures NormProperty(p) == p <==> KeptProperty(p)
  {
    if p.DoubleProperty? {
      hide NormProperty, KeptDouble;
      MeasureIsKept(p.d);
    }
  }

  lemma OptionalMeasureIsKept(x: Option<real>)
    ensures SavedMeasure(x) == x <==> (x.Some? ==> KeptMeasure(x.value))
  {
    hide SavedReal, KeptMeasure, NormProperty;
    if x.Some? {
      MeasureIsKept(x.value);
    }
  }

  lemma EdgeIsKept(e: Edge)
    ensures NormEdge(e) == e <==> KeptEdge(e)
  {
    hide NormProperties, KeptProperties, SavedMeasure, KeptMeasure;
    PropertiesAreKept(e.properties);
    OptionalMeasureIsKept(e.bandwidth);
    OptionalMeasureIsKept(e.latency);
    OptionalMeasureIsKept(e.localityScore);
  }

  // Saving and loading gives the very same nodes and edges exactly when no number changes its kind
  // or loses decimals.
  lemma SnapshotIsKeptExactly(s: Snapshot)
    ensures NormNodes(s.nodes) == s.nodes && NormEdges(s.edges) == s.edges <==>
            && (forall id :: id in s.nodes ==> KeptProperties(s.nodes[id].properties))
            && (forall i :: 0 <= i < |s.edges| ==> KeptEdge(s.edges[i]))
  {
    hide NormProperties, KeptProperties, NormEdge, KeptEdge;
    forall id | id in s.nodes
      ensures NormNode(s.nodes[id]) == s.nodes[id] <==> KeptProperties(s.nodes[id].properties)
    {
      PropertiesAreKept(s.nodes[id].properties);
    }
    forall i | 0 <= i < |s.edges|
      ensures NormEdge(s.edges[i]) == s.edges[i] <==> KeptEdge(s.edges[i])
    {
      EdgeIsKept(s.edges[i]);
    }
    if NormNodes(s.nodes) == s.nodes && NormEdges(s.edges) == s.edges {
      assert forall id :: id in s.nodes ==> NormNodes(s.nodes)[id] == NormNode(s.nodes[id]);
      assert forall i :: 0 <= i < |s.edges| ==> NormEdges(s.edges)[i] == NormEdge(s.edges[i]);
    }
  }
}
