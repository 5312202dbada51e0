/** A serializer and a deserializer together: what one hands over to the other. */
module ClixmlTransfer {
  import opened Wrappers
  import opened Clixml
  import opened ClixmlWriter
  import opened ClixmlReader
  import opened ClixmlRoundTrip
  import opened ClixmlDocument
  import opened ClixmlCycles
  import opened ClixmlIsomorphism
  import opened ClixmlSerializer
  import opened ClixmlDeserializer

  /**
   What becomes of a value that a new serializer writes and a new deserializer reads: exactly the
   values without a cycle and not nested too deep arrive, and exactly the intact ones as themselves.
   */
  method Transfer(h: Heap, v: Value, maxDepth: int)
    returns (r: Option<Result<seq<Value>, ClixmlReader.Error>>, heap: Heap)
    requires InRange(Written(h, v, 0).t)
    ensures r.None? <==> Written(h, v, 0).status != Done
    ensures r.Some? ==> (r.value.Ok? <==> Acyclic(h, v) && Written(h, v, 0).need <= maxDepth)
    ensures r.Some? && r.value.Ok? ==>
              && |r.value.value| == 1
              && (Arrives(h, v, r.value.value[0], Written(h, v, 0).t, heap) <==> IntactDocument(h, v))
  {
    var s := new Serializer();
    var doc := s.Serialize(h, v);
    if doc.Err? {
      return None, map[];
    }
    var d := new Deserializer(maxDepth);
    ghost var start := d.State().(toks := doc.value);
    var read := d.Deserialize(doc.value);
    ReadsBackIff(h, v, start, maxDepth);
    if Acyclic(h, v) && Written(h, v, 0).need <= maxDepth {
      ReadsBackIsomorphic(h, v, start, maxDepth);
    }
    r, heap := Some(read), d.heap;
  }
}
