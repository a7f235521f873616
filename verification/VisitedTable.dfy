/**
 The set of nodes a graph search has seen: either a table of 8-bit stamps, where a node is in the set
 when its stamp equals the current one, or a hash set (visno == 0).
 */
module VisitedTables {

  const HashsetThreshold: nat := 500000

  class VisitedTable {
    var visited: seq<nat>
    var visitedSet: set<nat>
    var visno: nat
    ghost const size: nat

    /** Stamps never exceed the current one, and both fit a byte. */
    ghost predicate Valid()
      reads this
    {
      && visno <= 254
      && (visno > 0 ==> |visited| == size && visitedSet == {} && forall i :: 0 <= i < |visited| ==> visited[i] <= visno)
    }

    /** The set the table stands for. */
    ghost function Flags(): set<nat>
      reads this
    {
      if visno == 0 then visitedSet else set i: nat | i < |visited| && visited[i] == visno
    }

    /** `useHashset` None leaves the choice to the threshold. */
    constructor (size: nat, useHashset: Choice)
      ensures Valid() && Flags() == {} && this.size == size
    {
      var hash := match useHashset case Unset => size >= HashsetThreshold case Use(b) => b;
      this.size := size;
      visno := if hash then 0 else 1;
      visited := if hash then [] else seq(size, _ => 0);
      visitedSet := {};
    }

    method Set(no: nat) returns (changed: bool)
      requires Valid() && (visno > 0 ==> no < size)
      modifies this
      ensures Valid() && visno == old(visno)
      ensures Flags() == old(Flags()) + {no}
      ensures changed <==> no !in old(Flags())
    {
      if visno == 0 {
        changed := no !in visitedSet;
        visitedSet := visitedSet + {no};
      } else if visited[no] == visno {
        changed := false;
      } else {
        visited := visited[no := visno];
        changed := true;
      }
    }

    method Get(no: nat) returns (flag: bool)
      requires Valid() && (visno > 0 ==> no < size)
      ensures flag <==> no in Flags()
    {
      if visno == 0 {
        flag := no in visitedSet;
      } else {
        flag := visited[no] == visno;
      }
    }

    /** Forgets every flag, however often it is called: stamps are cleared before one is reused. */
    method Advance()
      requires Valid()
      modifies this
      ensures Valid() && Flags() == {}
      ensures visno == if old(visno) == 0 then 0 else if old(visno) < 254 then old(visno) + 1 else 1
    {
      if visno == 0 {
        visitedSet := {};
      } else if visno < 254 {
        visno := visno + 1;
      } else {
        visited := seq(|visited|, _ => 0);
        visno := 1;
      }
    }
  }

  datatype Choice = Unset | Use(hash: bool)
}
