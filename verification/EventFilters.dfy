/** Converting event filters to their wire form and back. */
module EventFilters {
  import opened EventFields

  /** `types` is a bit mask: 1 selects acknowledged events, 2 the others. */
  datatype EventFilter = EventFilter(types: nat, ofType: seq<NodeId>, childOf: seq<NodeId>)

  datatype Operand = Attribute(path: Path) | LiteralNode(id: NodeId) | LiteralFlag(on: bool) | OtherOperand
  datatype Operator = OfType | RelatedTo | Equals | OtherOperator
  datatype Element = Element(op: Operator, operands: seq<Operand>)
  datatype WireFilter = WireFilter(select: seq<Path>, where: seq<Element>)

  predicate Acked(types: nat) {
    types % 2 == 1
  }

  predicate Unacked(types: nat) {
    types / 2 % 2 == 1
  }

  function AddBit(types: nat, acked: bool): nat {
    if acked then (if Acked(types) then types else types + 1)
    else if Unacked(types) then types else types + 2
  }

  // ---------- to the wire ----------

  function NodeElements(op: Operator, ids: seq<NodeId>): seq<Element> {
    if ids == [] then [] else NodeElements(op, ids[..|ids| - 1]) + [Element(op, [LiteralNode(ids[|ids| - 1])])]
  }

  function AckedElement(acked: bool): Element {
    Element(Equals, [Attribute(["AckedState"]), LiteralFlag(acked)])
  }

  function WireElements(f: EventFilter): seq<Element> {
    NodeElements(OfType, f.ofType) + NodeElements(RelatedTo, f.childOf)
    + (if Acked(f.types) then [AckedElement(true)] else [])
    + (if Unacked(f.types) then [AckedElement(false)] else [])
  }

  method ToUaEventFilter(paths: seq<Path>, f: EventFilter) returns (wire: WireFilter)
    ensures wire == WireFilter(paths, WireElements(f))
  {
    var where := [];
    for i := 0 to |f.ofType|
      invariant where == NodeElements(OfType, f.ofType[..i])
    {
      assert f.ofType[..i + 1][..i] == f.ofType[..i];
      where := where + [Element(OfType, [LiteralNode(f.ofType[i])])];
    }
    assert f.ofType[..|f.ofType|] == f.ofType;
    ghost var types := where;
    for i := 0 to |f.childOf|
      invariant where == types + NodeElements(RelatedTo, f.childOf[..i])
    {
      assert f.childOf[..i + 1][..i] == f.childOf[..i];
      where := where + [Element(RelatedTo, [LiteralNode(f.childOf[i])])];
    }
    assert f.childOf[..|f.childOf|] == f.childOf;
    if Acked(f.types) {
      where := where + [AckedElement(true)];
    }
    if Unacked(f.types) {
      where := where + [AckedElement(false)];
    }
    wire := WireFilter(paths, where);
  }

  // ---------- from the wire ----------

  predicate NamesAcked(o: Operand) {
    o.Attribute? && o.path != [] && o.path[|o.path| - 1] == "AckedState"
  }

  /** Elements of any other shape are ignored. */
  function Read(f: EventFilter, e: Element): EventFilter {
    if e.op == OfType && |e.operands| == 1 then
      if e.operands[0].LiteralNode? then f.(ofType := f.ofType + [e.operands[0].id]) else f
    else if e.op == RelatedTo && |e.operands| == 1 then
      if e.operands[0].LiteralNode? then f.(childOf := f.childOf + [e.operands[0].id]) else f
    else if e.op == Equals && |e.operands| == 2 then
      if NamesAcked(e.operands[0]) && e.operands[1].LiteralFlag? then
        f.(types := AddBit(f.types, e.operands[1].on))
      else if NamesAcked(e.operands[1]) && e.operands[0].LiteralFlag? then
        f.(types := AddBit(f.types, e.operands[0].on))
      else f
    else f
  }

  function ReadAll(f: EventFilter, where: seq<Element>): EventFilter {
    if where == [] then f else Read(ReadAll(f, where[..|where| - 1]), where[|where| - 1])
  }

  const NO_FILTER: EventFilter := EventFilter(0, [], [])

  method ToManagedEventFilter(wire: WireFilter) returns (paths: seq<Path>, f: EventFilter)
    ensures paths == wire.select && f == ReadAll(NO_FILTER, wire.where)
  {
    paths := [];
    for i := 0 to |wire.select|
      invariant paths == wire.select[..i]
    {
      paths := paths + [wire.select[i]];
    }
    f := NO_FILTER;
    for i := 0 to |wire.where|
      invariant f == ReadAll(NO_FILTER, wire.where[..i])
    {
      assert wire.where[..i + 1][..i] == wire.where[..i];
      f := Read(f, wire.where[i]);
    }
    assert wire.where[..|wire.where|] == wire.where;
  }

  // ---------- round trip ----------

  lemma {:induction false} ReadTypes(f: EventFilter, ids: seq<NodeId>)
    ensures ReadAll(f, NodeElements(OfType, ids)) == f.(ofType := f.ofType + ids)
  {
    var es := NodeElements(OfType, ids);
    if ids == [] {
      assert f.ofType + [] == f.ofType;
    } else {
      var n := |ids| - 1;
      ReadTypes(f, ids[..n]);
      assert es[..|es| - 1] == NodeElements(OfType, ids[..n]);
      assert f.ofType + ids[..n] + [ids[n]] == f.ofType + ids;
    }
  }

  lemma {:induction false} ReadParents(f: EventFilter, ids: seq<NodeId>)
    ensures ReadAll(f, NodeElements(RelatedTo, ids)) == f.(childOf := f.childOf + ids)
  {
    var es := NodeElements(RelatedTo, ids);
    if ids == [] {
      assert f.childOf + [] == f.childOf;
    } else {
      var n := |ids| - 1;
      ReadParents(f, ids[..n]);
      assert es[..|es| - 1] == NodeElements(RelatedTo, ids[..n]);
      assert f.childOf + ids[..n] + [ids[n]] == f.childOf + ids;
    }
  }

  lemma {:induction false} ReadConcat(f: EventFilter, a: seq<Element>, b: seq<Element>)
    ensures ReadAll(f, a + b) == ReadAll(ReadAll(f, a), b)
  {
    if b == [] {
      assert a + b == a;
    } else {
      ReadConcat(f, a, b[..|b| - 1]);
      assert (a + b)[..|a + b| - 1] == a + b[..|b| - 1];
    }
  }

  /** Going over the wire keeps the type lists and the two acknowledgement bits, and no other bit. */
  lemma FilterRoundTrip(f: EventFilter)
    ensures ReadAll(NO_FILTER, WireElements(f)) == f.(types := f.types % 4)
  {
    var a, b := NodeElements(OfType, f.ofType), NodeElements(RelatedTo, f.childOf);
    var c := if Acked(f.types) then [AckedElement(true)] else [];
    var d := if Unacked(f.types) then [AckedElement(false)] else [];
    ReadTypes(NO_FILTER, f.ofType);
    var f1 := EventFilter(0, f.ofType, []);
    ReadParents(f1, f.childOf);
    var f2 := EventFilter(0, f.ofType, f.childOf);
    assert [] + f.ofType == f.ofType && [] + f.childOf == f.childOf;
    ReadConcat(NO_FILTER, a, b);
    ReadConcat(NO_FILTER, a + b, c);
    ReadConcat(NO_FILTER, a + b + c, d);
    ReadBits(f2, f.types, c, d);
  }

  lemma ReadOne(f: EventFilter, e: Element)
    ensures ReadAll(f, [e]) == Read(f, e)
  {
    assert [e][..0] == [];
  }

  lemma ReadBits(f: EventFilter, types: nat, c: seq<Element>, d: seq<Element>)
    requires f.types == 0
    requires c == (if Acked(types) then [AckedElement(true)] else [])
    requires d == (if Unacked(types) then [AckedElement(false)] else [])
    ensures ReadAll(ReadAll(f, c), d) == f.(types := types % 4)
  {
    var f1 := ReadAll(f, c);
    ReadOne(f, AckedElement(true));
    ReadOne(f1, AckedElement(false));
    assert f1 == f.(types := types % 2);
    assert ReadAll(f1, d) == f.(types := types % 4);
  }

  // ---------- the wire form by itself ----------

  lemma {:induction false} NodeElementsAre(op: Operator, ids: seq<NodeId>)
    ensures |NodeElements(op, ids)| == |ids|
    ensures forall i :: 0 <= i < |ids| ==> NodeElements(op, ids)[i] == Element(op, [LiteralNode(ids[i])])
  {
    if ids != [] {
      NodeElementsAre(op, ids[..|ids| - 1]);
    }
  }

  /** A filter goes over the wire as one type test for each of its types, one relation for each of its
      parents, in order, and one comparison of the acknowledged state for each of the two bits it has. */
  lemma WireExactly(f: EventFilter)
    ensures var w, t, c := WireElements(f), |f.ofType|, |f.childOf|;
            var acked, unacked := f.types % 2 == 1, f.types / 2 % 2 == 1;
            && |w| == t + c + (if acked then 1 else 0) + (if unacked then 1 else 0)
            && (forall i :: 0 <= i < t ==> w[i] == Element(OfType, [LiteralNode(f.ofType[i])]))
            && (forall i :: 0 <= i < c ==> w[t + i] == Element(RelatedTo, [LiteralNode(f.childOf[i])]))
            && (acked ==> w[t + c] == Element(Equals, [Attribute(["AckedState"]), LiteralFlag(true)]))
            && (unacked ==> w[|w| - 1] == Element(Equals, [Attribute(["AckedState"]), LiteralFlag(false)]))
  {
    NodeElementsAre(OfType, f.ofType);
    NodeElementsAre(RelatedTo, f.childOf);
    hide NodeElements;
  }

  /** The nodes that the elements of one operator name, in order. */
  function NodesNamed(op: Operator, where: seq<Element>): seq<NodeId> {
    if where == [] then []
    else
      var n := |where| - 1;
      var e := where[n];
      NodesNamed(op, where[..n])
      + (if e.op == op && |e.operands| == 1 && e.operands[0].LiteralNode? then [e.operands[0].id] else [])
  }

  /** The element compares the acknowledged state with `on`, in either order. */
  predicate Compares(e: Element, on: bool) {
    && e.op == Equals && |e.operands| == 2
    && ((NamesAcked(e.operands[0]) && e.operands[1] == LiteralFlag(on))
        || (NamesAcked(e.operands[1]) && e.operands[0] == LiteralFlag(on)))
  }

  /** Whatever a where clause holds, what is read from it are the nodes its type tests name, the nodes its
      relations name, and whether it compares the acknowledged state with yes and with no. */
  lemma {:induction false} ReadExactly(where: seq<Element>)
    ensures var f := ReadAll(NO_FILTER, where);
            && f.ofType == NodesNamed(OfType, where) && f.childOf == NodesNamed(RelatedTo, where)
            && f.types < 4
            && (f.types % 2 == 1 <==> exists e :: e in where && Compares(e, true))
            && (f.types / 2 % 2 == 1 <==> exists e :: e in where && Compares(e, false))
  {
    if where != [] {
      var n := |where| - 1;
      ReadExactly(where[..n]);
      assert where == where[..n] + [where[n]];
      ReadNext(ReadAll(NO_FILTER, where[..n]), where[n]);
      hide Read, Compares;
    }
  }

  lemma ReadNext(f: EventFilter, e: Element)
    requires f.types < 4
    ensures var f' := Read(f, e);
            && f'.ofType == f.ofType + NodesNamed(OfType, [e]) && f'.childOf == f.childOf + NodesNamed(RelatedTo, [e])
            && f'.types < 4
            && (f'.types % 2 == 1 <==> f.types % 2 == 1 || Compares(e, true))
            && (f'.types / 2 % 2 == 1 <==> f.types / 2 % 2 == 1 || Compares(e, false))
  {
    assert [e][..0] == [];
  }
}
