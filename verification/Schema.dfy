/** A schema of structures that refer to each other by name, and the graph of those references. */
module Schema {
  type Name = nat    // type names, in their alphabetical order

  datatype Field = Field(typeName: Name, isArray: bool)
  datatype Struct = Struct(name: Name, fields: seq<Field>)

  function Dependencies(s: Struct): set<Name> {
    set i | 0 <= i < |s.fields| :: s.fields[i].typeName
  }

  function Names(structs: seq<Struct>): set<Name> {
    set i | 0 <= i < |structs| :: structs[i].name
  }

  ghost predicate DistinctNames(structs: seq<Struct>) {
    forall i, j :: 0 <= i < j < |structs| ==> structs[i].name != structs[j].name
  }

  /** A structure of that name refers to `b`, directly or as the element type of an array. */
  ghost predicate Refers(structs: seq<Struct>, a: Name, b: Name) {
    b in Names(structs) && exists s :: s in structs && s.name == a && b in Dependencies(s)
  }

  ghost predicate Path(structs: seq<Struct>, p: seq<Name>) {
    forall i :: 0 <= i < |p| - 1 ==> Refers(structs, p[i], p[i + 1])
  }

  ghost predicate Cycle(structs: seq<Struct>, p: seq<Name>) {
    |p| >= 2 && p[0] == p[|p| - 1] && Path(structs, p)
  }

  /** Every structure comes after all the structures it refers to; `known` are the names of structures. */
  ghost predicate Ordered(known: set<Name>, structs: seq<Struct>) {
    forall i, n :: 0 <= i < |structs| && n in known && n in Dependencies(structs[i]) ==> n in Names(structs[..i])
  }

  // ---------- an order excludes cycles ----------

  /** `ordered` lists the structures of a schema without repeated names. */
  ghost predicate ListsAll(ordered: seq<Struct>, structs: seq<Struct>) {
    && DistinctNames(structs) && DistinctNames(ordered) && Names(ordered) == Names(structs)
    && forall s :: s in ordered ==> s in structs
  }

  ghost predicate Stands(structs: seq<Struct>, n: Name, i: int) {
    0 <= i < |structs| && structs[i].name == n
  }

  lemma SameNameSame(structs: seq<Struct>, a: Struct, b: Struct)
    requires DistinctNames(structs) && a in structs && b in structs && a.name == b.name
    ensures a == b
  {
  }

  /** Along a path the places in the order go down. */
  lemma {:induction false} PathDescends(structs: seq<Struct>, ordered: seq<Struct>, p: seq<Name>, i: int)
    returns (j: int)
    requires ListsAll(ordered, structs) && Ordered(Names(structs), ordered)
    requires Path(structs, p) && p != [] && Stands(ordered, p[0], i)
    ensures Stands(ordered, p[|p| - 1], j) && j <= i && (|p| >= 2 ==> j < i)
    decreases |p|
  {
    if |p| == 1 {
      j := i;
    } else {
      assert Refers(structs, p[0], p[1]);
      var s :| s in structs && s.name == p[0] && p[1] in Dependencies(s);
      assert ordered[i] in ordered;
      SameNameSame(structs, s, ordered[i]);
      assert p[1] in Names(ordered[..i]);
      var k :| 0 <= k < i && ordered[..i][k].name == p[1];
      assert Stands(ordered, p[1], k);
      PathTail(structs, p);
      j := PathDescends(structs, ordered, p[1..], k);
    }
  }

  lemma PathTail(structs: seq<Struct>, p: seq<Name>)
    requires Path(structs, p) && |p| >= 1
    ensures Path(structs, p[1..])
  {
    hide Refers;
    forall i | 0 <= i < |p| - 2
      ensures Refers(structs, p[1..][i], p[1..][i + 1])
    {
      assert Refers(structs, p[i + 1], p[i + 2]);
    }
  }

  lemma OrderedAcyclic(structs: seq<Struct>, ordered: seq<Struct>, p: seq<Name>)
    requires ListsAll(ordered, structs) && Ordered(Names(structs), ordered)
    ensures !Cycle(structs, p)
  {
    if Cycle(structs, p) {
      assert Refers(structs, p[0], p[0 + 1]);
      var s :| s in structs && s.name == p[0] && p[1] in Dependencies(s);
      assert p[0] in Names(ordered);
      var i :| 0 <= i < |ordered| && ordered[i].name == p[0];
      var j := PathDescends(structs, ordered, p, i);
      assert false;
    }
  }
}
