/** The generator's structure sorter: a depth-first visit that emits a structure after everything it
    refers to and refuses a schema with a cycle. */
module StructSorter {
  import opened Common
  import opened Schema

  type Table = map<Name, Struct>

  class StructSorter {
    ghost const structs: seq<Struct>
    const table: Table
    var ordered: seq<Struct>
    var emitted: set<Name>
    var visiting: set<Name>

    ghost predicate Valid()
      reads this
    {
      && Indexes(table, structs)
      && Names(ordered) == emitted && emitted <= table.Keys && visiting <= table.Keys
      && (forall s :: s in ordered ==> s in structs)
      && DistinctNames(ordered) && Ordered(table.Keys, ordered)
    }

    constructor (byName: Table, ghost of: seq<Struct>)
      requires Indexes(byName, of)
      ensures Valid() && fresh(this) && structs == of && table == byName
      ensures ordered == [] && emitted == {} && visiting == {}
    {
      structs, table, ordered, emitted, visiting := of, byName, [], {}, {};
    }

    /** Emits a structure after its dependencies. The stack holds the structures being visited, each
        referring to the next, the last one to this. */
    method Visit(struct: Struct, stack: seq<Name>) returns (cycle: Option<seq<Name>>)
      requires Valid() && struct in structs
      requires Elements(stack) == visiting && visiting !! emitted
      requires Path(structs, stack + [struct.name])
      modifies this`ordered, this`emitted, this`visiting
      ensures cycle.Some? ==> Cycle(structs, cycle.value)
      ensures cycle.None? ==>
                && Valid() && struct.name in emitted
                && visiting == old(visiting) && visiting !! emitted
                && old(emitted) <= emitted
                && old(ordered) <= ordered
      ensures cycle.None? && struct.name in old(emitted) ==> ordered == old(ordered)
      ensures cycle.None? && struct.name !in old(emitted)
              && Dependencies(struct) * table.Keys <= old(emitted) ==>
                ordered == old(ordered) + [struct]
      decreases table.Keys - visiting, 0
    {
      hide Path, Cycle, Ordered, Dependencies;
      if struct.name in emitted {
        return None;
      }
      NameKnown(structs, struct);
      if struct.name in visiting {
        var i :| 0 <= i < |stack| && stack[i] == struct.name;
        CycleFrom(structs, stack, struct.name, i);
        return Some((stack + [struct.name])[i..]);
      }
      visiting := visiting + {struct.name};
      assert Elements(stack + [struct.name]) == visiting;
      cycle := VisitDependencies(struct, stack + [struct.name]);
      if cycle.Some? {
        return;
      }
      visiting := visiting - {struct.name};
      emitted := emitted + {struct.name};
      EmitKeeps(table.Keys, ordered, struct);
      ordered := ordered + [struct];
      assert visiting == old(visiting);
    }

    /** Visits the dependencies that are structures of the schema, in alphabetical order. */
    method VisitDependencies(struct: Struct, stack: seq<Name>) returns (cycle: Option<seq<Name>>)
      requires Valid() && struct in structs && struct.name in visiting
      requires Elements(stack) == visiting && visiting !! emitted
      requires stack != [] && stack[|stack| - 1] == struct.name && Path(structs, stack)
      modifies this`ordered, this`emitted, this`visiting
      ensures cycle.Some? ==> Cycle(structs, cycle.value)
      ensures cycle.None? ==>
                && Valid() && Dependencies(struct) * table.Keys <= emitted
                && visiting == old(visiting) && visiting !! emitted
                && old(emitted) <= emitted
                && old(ordered) <= ordered
      ensures cycle.None? && Dependencies(struct) * table.Keys <= old(emitted) ==>
                ordered == old(ordered) && emitted == old(emitted)
      decreases table.Keys - visiting, 1
    {
      hide Path, Cycle, Ordered, Dependencies, DistinctNames;
      var rest := Dependencies(struct);
      while rest != {}
        invariant rest <= Dependencies(struct)
        invariant Valid() && visiting == old(visiting) && visiting !! emitted
        invariant old(emitted) <= emitted && old(ordered) <= ordered
        invariant (Dependencies(struct) - rest) * table.Keys <= emitted
        invariant Dependencies(struct) * table.Keys <= old(emitted) ==>
                    ordered == old(ordered) && emitted == old(emitted)
        decreases rest
      {
        var dependency := Least(rest);
        rest := rest - {dependency};
        if dependency in table {
          PathExtends(structs, stack, struct, dependency);
          cycle := Visit(table[dependency], stack);
          if cycle.Some? {
            return;
          }
        }
      }
      cycle := None;
    }
  }

  /** The table has one structure of the schema for each name. */
  ghost predicate Indexes(table: Table, structs: seq<Struct>) {
    table.Keys == Names(structs) && forall n :: n in table ==> table[n] in structs && table[n].name == n
  }

  method Least(names: set<Name>) returns (least: Name)
    requires names != {}
    ensures least in names && forall n :: n in names ==> least <= n
  {
    least :| least in names;
    var rest := names - {least};
    while rest != {}
      invariant rest <= names && least in names
      invariant forall n :: n in names ==> n in rest || least <= n
      decreases rest
    {
      var n :| n in rest;
      rest := rest - {n};
      if n < least {
        least := n;
      }
    }
  }

  lemma NameKnown(structs: seq<Struct>, s: Struct)
    requires s in structs
    ensures s.name in Names(structs)
  {
  }

  lemma CycleFrom(structs: seq<Struct>, stack: seq<Name>, name: Name, i: nat)
    requires Path(structs, stack + [name]) && i < |stack| && stack[i] == name
    ensures Cycle(structs, (stack + [name])[i..])
  {
    hide Refers;
    var p := stack + [name];
    forall k | 0 <= k < |p[i..]| - 1
      ensures Refers(structs, p[i..][k], p[i..][k + 1])
    {
      assert Refers(structs, p[i + k], p[i + k + 1]);
    }
  }

  lemma PathExtends(structs: seq<Struct>, stack: seq<Name>, last: Struct, name: Name)
    requires stack != [] && Path(structs, stack) && stack[|stack| - 1] == last.name
    requires last in structs && name in Dependencies(last) && name in Names(structs)
    ensures Path(structs, stack + [name])
  {
    var p := stack + [name];
    assert Refers(structs, last.name, name);
    hide Refers;
    forall i | 0 <= i < |p| - 1
      ensures Refers(structs, p[i], p[i + 1])
    {
      assert i < |stack| - 1 ==> Refers(structs, stack[i], stack[i + 1]);
    }
  }

  lemma EmitKeeps(known: set<Name>, ordered: seq<Struct>, struct: Struct)
    requires Ordered(known, ordered) && struct.name !in Names(ordered)
    requires Dependencies(struct) * known <= Names(ordered)
    ensures Ordered(known, ordered + [struct])
    ensures Names(ordered + [struct]) == Names(ordered) + {struct.name}
  {
    var o := ordered + [struct];
    assert o[..|ordered|] == ordered;
    NamesNext(o, |ordered|);
    assert o[..|ordered| + 1] == o;
    hide Dependencies, Names;
    forall i, n | 0 <= i < |o| && n in known && n in Dependencies(o[i])
      ensures n in Names(o[..i])
    {
      if i < |ordered| {
        assert o[..i] == ordered[..i] && o[i] == ordered[i];
      } else {
        assert n in Dependencies(struct) * known;
      }
    }
  }

  // ---------- sorting ----------

  datatype Sorted = Order(structs: seq<Struct>) | CyclicReferences(path: seq<Name>)

  /** Of several structures with one name the last one stays in the table. */
  method IndexByName(structs: seq<Struct>) returns (table: Table)
    ensures Indexes(table, structs)
  {
    table := map[];
    for i := 0 to |structs|
      invariant table.Keys == Names(structs[..i])
      invariant forall n :: n in table ==> table[n] in structs && table[n].name == n
    {
      NamesNext(structs, i);
      table := table[structs[i].name := structs[i]];
    }
    assert structs[..|structs|] == structs;
  }

  lemma NamesNext(structs: seq<Struct>, i: nat)
    requires i < |structs|
    ensures Names(structs[..i + 1]) == Names(structs[..i]) + {structs[i].name}
    ensures DistinctNames(structs) ==> structs[i].name !in Names(structs[..i])
  {
    forall n | n in Names(structs[..i])
      ensures n in Names(structs[..i + 1])
    {
      var j :| 0 <= j < i && structs[..i][j].name == n;
      assert structs[..i + 1][j].name == n;
    }
    assert structs[..i + 1][i] == structs[i];
    assert structs[..i + 1] == structs[..i] + [structs[i]];
  }

  /** Returns structures of the schema, one for each name, in which each follows all it refers to, or a
      cycle of references. Without repeated names it returns a permutation of the schema, it returns a
      cycle exactly when there is one, and leaves an ordered schema as it is. */
  method SortStructs(structs: seq<Struct>) returns (sorted: Sorted)
    ensures sorted.Order? ==>
              && DistinctNames(sorted.structs) && Names(sorted.structs) == Names(structs)
              && (forall s :: s in sorted.structs ==> s in structs)
              && Ordered(Names(structs), sorted.structs)
    ensures sorted.CyclicReferences? ==> Cycle(structs, sorted.path)
    ensures DistinctNames(structs) ==>
              && (sorted.Order? ==> multiset(sorted.structs) == multiset(structs))
              && (sorted.CyclicReferences? <==> exists p :: Cycle(structs, p))
              && (Ordered(Names(structs), structs) ==> sorted == Order(structs))
  {
    hide Cycle, Path, Ordered, Names, DistinctNames, Dependencies;
    var byName := IndexByName(structs);
    NoNames(structs);
    var sorter := new StructSorter(byName, structs);
    for i := 0 to |structs|
      invariant sorter.Valid() && sorter.visiting == {} && sorter.table == byName && sorter.structs == structs
      invariant Names(structs[..i]) <= sorter.emitted
      invariant DistinctNames(structs) && Ordered(Names(structs), structs) ==> sorter.ordered == structs[..i]
    {
      NamesNext(structs, i);
      NextIsReady(structs, i);
      assert structs[i] in structs;
      var cycle := sorter.Visit(structs[i], []);
      match cycle
      case Some(p) =>
        CycleUnordered(structs, p);
        return CyclicReferences(p);
      case None =>
        assert structs[..i + 1] == structs[..i] + [structs[i]];
    }
    assert structs[..|structs|] == structs;
    sorted := Order(sorter.ordered);
    if DistinctNames(structs) {
      SamePermutation(sorter.ordered, structs);
      NoCycles(structs, sorter.ordered);
    }
  }

  lemma NoNames(structs: seq<Struct>)
    ensures Names(structs[..0]) == {}
  {
  }

  lemma CycleUnordered(structs: seq<Struct>, p: seq<Name>)
    requires Cycle(structs, p)
    ensures DistinctNames(structs) ==> !Ordered(Names(structs), structs)
  {
    if DistinctNames(structs) && Ordered(Names(structs), structs) {
      OrderedAcyclic(structs, structs, p);
    }
  }

  lemma NoCycles(structs: seq<Struct>, ordered: seq<Struct>)
    requires ListsAll(ordered, structs) && Ordered(Names(structs), ordered)
    ensures !exists p :: Cycle(structs, p)
  {
    forall p
      ensures !Cycle(structs, p)
    {
      OrderedAcyclic(structs, ordered, p);
    }
  }

  lemma NextIsReady(structs: seq<Struct>, i: nat)
    requires i < |structs|
    ensures Ordered(Names(structs), structs) ==> Dependencies(structs[i]) * Names(structs) <= Names(structs[..i])
    ensures Path(structs, [] + [structs[i].name])
  {
    hide Dependencies, Names;
  }

  /** Two listings of one schema are permutations of each other. */
  lemma SamePermutation(ordered: seq<Struct>, structs: seq<Struct>)
    requires DistinctNames(ordered) && DistinctNames(structs) && Names(ordered) == Names(structs)
    requires forall s :: s in ordered ==> s in structs
    ensures multiset(ordered) == multiset(structs)
    ensures ListsAll(ordered, structs)
  {
    OncePerName(ordered);
    OncePerName(structs);
    forall s
      ensures multiset(ordered)[s] == multiset(structs)[s]
    {
      if s in structs && s !in ordered {
        assert s.name in Names(ordered);
        var i :| 0 <= i < |ordered| && ordered[i].name == s.name;
        assert ordered[i] in ordered;
        SameNameSame(structs, s, ordered[i]);
      }
    }
  }

  lemma {:induction false} OncePerName(structs: seq<Struct>)
    requires DistinctNames(structs)
    ensures forall s :: multiset(structs)[s] == if s in structs then 1 else 0
  {
    if structs != [] {
      var n := |structs| - 1;
      OncePerName(structs[..n]);
      assert structs == structs[..n] + [structs[n]];
      assert structs[n] !in structs[..n];
    }
  }
}
