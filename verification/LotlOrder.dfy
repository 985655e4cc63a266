/** Two worlds in which the order of a LoTL walk matters. */
module LotlOrder {
  import opened Options
  import opened LoteIndex
  import opened LotlResolve

  function To(location: string): Pointer {
    Pointer(location, ToLotl)
  }

  // ---------------------------------------------------------------- what a depth limit loses

  /** S points to A and B, A to B, and B to C; three levels are allowed. */
  ghost function Diamond(): World {
    World(3, true, 0, ["S"],
          map["S" := Lotl("t", Undated, [To("A"), To("B")]), "A" := Lotl("t", Undated, [To("B")]),
              "B" := Lotl("t", Undated, [To("C")]), "C" := Lotl("t", Undated, [])],
          map[])
  }

  lemma DiamondChain()
    ensures IsChain(Diamond(), ["S", "B", "C"])
  {
    var w := Diamond();
    var s, b := ["S"], ["S", "B"];
    assert ["S", "B", "C"][..2] == b && b[..1] == s && s[..0] == [];
    assert IsChain(w, s);
    assert To("B") in Pointers(w, "S") && To("C") in Pointers(w, "B");
    assert IsChain(w, b);
  }

  /** One pointer to a LoTL, visited at a depth. */
  lemma OnePointer(w: World, p: Pointer, depth: nat, via: Option<int>, visited: set<string>)
    requires p.location != "" && p.kind.ToLotl?
    ensures VisitPointers(w, [p], 1, depth, via, visited) == VisitLotl(w, p.location, depth + 1, via, visited)
  {
    hide VisitLotl;
    var v := VisitLotl(w, p.location, depth + 1, via, visited);
    assert VisitPointers(w, [p], 0, depth, via, visited) == Visit(visited, [], {});
    assert [] + v.found == v.found && {} + v.cut == v.cut;
  }

  lemma VisitB(via: Option<int>)
    ensures VisitLotl(Diamond(), "B", 2, via, {"S", "A"}) == Visit({"S", "A", "B"}, [], {"C"})
  {
    var w := Diamond();
    OnePointer(w, To("C"), 2, Earliest(via, None), {"S", "A"} + {"B"});
    assert {"S", "A"} + {"B"} == {"S", "A", "B"};
  }

  lemma VisitA(via: Option<int>)
    ensures VisitLotl(Diamond(), "A", 1, via, {"S"}) == Visit({"S", "A", "B"}, [], {"C"})
  {
    var w := Diamond();
    OnePointer(w, To("B"), 1, Earliest(via, None), {"S"} + {"A"});
    assert {"S"} + {"A"} == {"S", "A"};
    VisitB(Earliest(via, None));
  }

  lemma VisitS()
    ensures VisitLotl(Diamond(), "S", 0, None, {}) == Visit({"S", "A", "B"}, [], {"C"})
  {
    var w := Diamond();
    var ps := [To("A"), To("B")];
    VisitA(None);
    assert {} + {"S"} == {"S"};
    var all := {"S", "A", "B"};
    assert VisitPointers(w, ps, 0, 0, None, {"S"}) == Visit({"S"}, [], {});
    assert VisitPointers(w, ps, 1, 0, None, {"S"}) == Visit(all, [], {"C"});
    assert VisitLotl(w, "B", 1, None, all) == Visit(all, [], {});
    assert VisitPointers(w, ps, 2, 0, None, {"S"}) == Visit(all, [], {"C"});
  }

  /** T, configured beside S, is also what S points to; one level is allowed. */
  ghost function Twice(): World {
    World(1, true, 0, ["S", "T"], map["S" := Lotl("t", Undated, [To("T")]), "T" := Lotl("t", Undated, [])], map[])
  }

  /** The limit turns the pointer to T away, and T could be reached within it, but it is: DepthSuffices is more than it takes.
      What it takes depends on the order. */
  lemma CutWithoutLoss()
    ensures !DepthSuffices(Twice()) && LosesNothing(Twice(), VisitSources(Twice(), 2)) && "T" in VisitSources(Twice(), 2).cut
  {
    var w := Twice();
    assert ["S"][..0] == [] && ["T"][..0] == [];
    assert IsChain(w, ["S"]) && Ends(w, ["T"], "T") && KeepsToLimit(w, ["T"]);
    assert To("T") in Pointers(w, "S");
    assert CutAt(w, ["S"], "T");
    assert VisitPointers(w, [To("T")], 1, 0, None, {"S"}) == Visit({"S"}, [], {"T"}) by {
      OnePointer(w, To("T"), 0, None, {"S"});
    }
    assert VisitLotl(w, "S", 0, None, {}).visited == {"S"} by { assert {} + {"S"} == {"S"}; }
    assert VisitLotl(w, "S", 0, None, {}) == Visit({"S"}, [], {"T"}) by { assert {} + {"S"} == {"S"}; }
    assert VisitLotl(w, "T", 0, None, {"S"}).visited == {"S", "T"};
    hide VisitLotl;
    assert VisitSources(w, 0) == Visit({}, [], {});
    assert VisitSources(w, 1).visited == {"S"};
  }

  /** The walk meets B on the second level of the branch through A, and cuts C off there; when it comes to B again, one level
      higher, B is visited already. So C is lost, although a chain within the limit leads to it. */
  lemma DepthLimitLoses()
    ensures Ends(Diamond(), ["S", "B", "C"], "C") && KeepsToLimit(Diamond(), ["S", "B", "C"])
    ensures "C" !in VisitSources(Diamond(), 1).visited && !LosesNothing(Diamond(), VisitSources(Diamond(), 1))
  {
    DiamondChain();
    VisitS();
    hide VisitLotl, IsChain;
    assert VisitSources(Diamond(), 0) == Visit({}, [], {});
    assert VisitSources(Diamond(), 1) == Visit({"S", "A", "B"}, [], {"C"});
    assert Ends(Diamond(), ["S", "B", "C"], "C") && KeepsToLimit(Diamond(), ["S", "B", "C"]);
    assert Loads(Diamond(), "C");
  }

  // ---------------------------------------------------------------- what the order of the sources decides

  function TheList(): Document {
    Document(Lote("t", "", []), Undated)
  }

  /** S and T, with different dates, point to X, which points to a list. */
  ghost function Shared(sources: seq<string>): World {
    var p := Pointer("list", ToLote);
    World(0, true, 0, sources,
          map["S" := Lotl("t", At(1), [To("X")]), "T" := Lotl("t", At(2), [To("X")]), "X" := Lotl("t", Undated, [p])],
          map[p := [TheList()]])
  }

  lemma VisitX(sources: seq<string>, first: string, due: int)
    requires first in {"S", "T"}
    ensures VisitLotl(Shared(sources), "X", 1, Some(due), {first}) == Visit({first, "X"}, [Found(TheList(), Some(due))], {})
  {
    var w := Shared(sources);
    var p := Pointer("list", ToLote);
    var visited := {first} + {"X"};
    assert visited == {first, "X"};
    assert AllFound([TheList()], Some(due)) == [Found(TheList(), Some(due))];
    assert VisitPointer(w, p, 1, Some(due), visited) == Visit(visited, [Found(TheList(), Some(due))], {});
    assert VisitPointers(w, [p], 0, 1, Some(due), visited) == Visit(visited, [], {});
    assert VisitPointers(w, [p], 1, 1, Some(due), visited) == Visit(visited, [Found(TheList(), Some(due))], {});
  }

  lemma VisitFirst(sources: seq<string>, first: string, due: int)
    requires (first == "S" && due == 1) || (first == "T" && due == 2)
    ensures VisitLotl(Shared(sources), first, 0, None, {}) == Visit({first, "X"}, [Found(TheList(), Some(due))], {})
  {
    OnePointer(Shared(sources), To("X"), 0, Some(due), {} + {first});
    assert {} + {first} == {first};
    VisitX(sources, first, due);
    hide VisitPointers;
  }

  lemma VisitSecond(sources: seq<string>, first: string, second: string)
    requires (first == "S" && second == "T") || (first == "T" && second == "S")
    ensures VisitLotl(Shared(sources), second, 0, None, {first, "X"}).found == []
  {
    var w := Shared(sources);
    var due := if second == "S" then 1 else 2;
    var visited := {first, "X"} + {second};
    OnePointer(w, To("X"), 0, Some(due), visited);
    assert VisitLotl(w, "X", 1, Some(due), visited) == Visit(visited, [], {});
    hide VisitPointers;
  }

  /** A list behind a LoTL that two sources share inherits the date of the source that is configured first. */
  lemma DeadlineFollowsSourceOrder()
    ensures VisitSources(Shared(["S", "T"]), 2).found == [Found(TheList(), Some(1))]
    ensures VisitSources(Shared(["T", "S"]), 2).found == [Found(TheList(), Some(2))]
  {
    InOrder("S", "T", 1);
    InOrder("T", "S", 2);
  }

  lemma InOrder(first: string, second: string, due: int)
    requires (first == "S" && second == "T" && due == 1) || (first == "T" && second == "S" && due == 2)
    ensures VisitSources(Shared([first, second]), 2).found == [Found(TheList(), Some(due))]
  {
    var w := Shared([first, second]);
    VisitFirst([first, second], first, due);
    VisitSecond([first, second], first, second);
    hide VisitLotl;
    assert VisitSources(w, 0) == Visit({}, [], {});
    assert VisitSources(w, 1) == Visit({first, "X"}, [Found(TheList(), Some(due))], {});
  }
}
