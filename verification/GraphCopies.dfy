// What copying a value leaves of its arrays.
module GraphCopies {
  import opened LittleEndian
  import opened ObjectGraph
  import opened GraphFacts

  // A copied array is the original without its null elements, in order: each
  // other element is copied under its own name.
  lemma {:induction false} CopyInOrder(a: seq<Elem>, b: seq<Elem>, o: Obj)
    ensures CopyData(OList(a)) == OList(CopyElems(a)) && CopyElems(a + b) == CopyElems(a) + CopyElems(b)
    ensures CopyElems([]) == [] && CopyElems([NoElem]) == []
    ensures CopyElems([Elem(o)]) == [Elem(Obj(o.name, CopyData(o.data)))]
  {
    CopyTogether(a, b);
    assert [NoElem][1..] == [] && [Elem(o)][1..] == [];
  }

  lemma {:induction false} CopyTogether(a: seq<Elem>, b: seq<Elem>)
    ensures CopyElems(a + b) == CopyElems(a) + CopyElems(b)
  {
    hide CopyElem;
    if a == [] {
      assert a + b == b;
    } else {
      assert (a + b)[1..] == a[1..] + b;
      CopyTogether(a[1..], b);
    }
  }
}
