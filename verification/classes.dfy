/** Registered classes: superclasses come first, so every walk toward them ends. */
module Classes {

  /** A member of the instances of a class: a variable with its initial value, or a method. */
  datatype Member = Field(initial: int) | Method(code: nat)

  /** A class: its superclass ("" for none), its operator methods by operator index, and the members
      of its instances. */
  datatype Class = Class(name: string, super: string, operators: map<nat, nat>, members: map<string, Member>)

  /** Superclasses are registered, before the classes that name them. */
  ghost predicate Ranked(classes: map<string, Class>, rank: map<string, nat>) {
    && classes.Keys == rank.Keys
    && forall n :: n in classes ==>
         classes[n].name == n
           && (classes[n].super != "" ==> classes[n].super in classes && rank[classes[n].super] < rank[n])
  }

  /** A class and its superclasses, most derived first. */
  ghost function Chain(classes: map<string, Class>, rank: map<string, nat>, n: string): (r: seq<Class>)
    requires Ranked(classes, rank) && n in classes
    ensures |r| > 0 && r[0] == classes[n]
    ensures forall i :: 0 <= i < |r| ==> r[i].name in classes && classes[r[i].name] == r[i]
    ensures forall i :: 0 <= i < |r| - 1 ==> r[i + 1].name == r[i].super
    ensures r[|r| - 1].super == ""
    decreases rank[n]
  {
    if classes[n].super == "" then [classes[n]] else [classes[n]] + Chain(classes, rank, classes[n].super)
  }

  /** No class is its own superclass, however far up. */
  lemma {:induction false} NoCycle(classes: map<string, Class>, rank: map<string, nat>, n: string, i: nat, j: nat)
    requires Ranked(classes, rank) && n in classes && i < j < |Chain(classes, rank, n)|
    ensures Chain(classes, rank, n)[i].name != Chain(classes, rank, n)[j].name
  {
    RankFalls(classes, rank, n, i, j);
  }

  lemma {:induction false} RankFalls(classes: map<string, Class>, rank: map<string, nat>, n: string, i: nat, j: nat)
    requires Ranked(classes, rank) && n in classes && i < j < |Chain(classes, rank, n)|
    ensures var c := Chain(classes, rank, n); rank[c[j].name] < rank[c[i].name]
    decreases j
  {
    var c := Chain(classes, rank, n);
    assert c[j].name == c[j - 1].super && c[j].name in classes;
    if c[j - 1].super == "" { LastHasNoSuper(classes, rank, n, j - 1); }
    if i < j - 1 { RankFalls(classes, rank, n, i, j - 1); }
  }

  /** Only the last class of a chain has no superclass. */
  lemma {:induction false} LastHasNoSuper(classes: map<string, Class>, rank: map<string, nat>, n: string, i: nat)
    requires Ranked(classes, rank) && n in classes && i < |Chain(classes, rank, n)|
    ensures Chain(classes, rank, n)[i].super == "" <==> i == |Chain(classes, rank, n)| - 1
    decreases i
  {
    if i > 0 && classes[n].super != "" { LastHasNoSuper(classes, rank, classes[n].super, i - 1); }
  }

  /** The first class of a chain that defines an operator defines it for all before. */
  ghost function FirstDefinition(chain: seq<Class>, op: nat): (r: seq<nat>)
    ensures r == [] <==> forall i :: 0 <= i < |chain| ==> op !in chain[i].operators
    ensures r != [] ==> exists i :: 0 <= i < |chain| && op in chain[i].operators && r == [chain[i].operators[op]]
                                    && forall j :: 0 <= j < i ==> op !in chain[j].operators
  {
    if chain == [] then []
    else if op in chain[0].operators then
      assert op in chain[0].operators;
      [chain[0].operators[op]]
    else
      var r := FirstDefinition(chain[1..], op);
      assert forall i :: 0 <= i < |chain[1..]| ==> chain[1..][i] == chain[i + 1];
      assert r != [] ==> exists i :: 0 <= i < |chain| && op in chain[i].operators && r == [chain[i].operators[op]]
                                     && forall j :: 0 <= j < i ==> op !in chain[j].operators by {
        if r != [] {
          var k :| 0 <= k < |chain[1..]| && op in chain[1..][k].operators && r == [chain[1..][k].operators[op]]
                   && forall j :: 0 <= j < k ==> op !in chain[1..][j].operators;
          assert chain[k + 1] == chain[1..][k];
          forall j | 0 <= j < k + 1 ensures op !in chain[j].operators {
            if j > 0 { assert chain[1..][j - 1] == chain[j]; }
          }
        }
      }
      r
  }

  class Registry {
    var classes: map<string, Class>
    ghost var rank: map<string, nat>

    constructor ()
      ensures Valid() && classes == map[]
    {
      classes, rank := map[], map[];
    }

    ghost predicate Valid()
      reads this
    {
      Ranked(classes, rank) && forall n :: n in rank ==> rank[n] < |rank|
    }

    /** Registers a class, unless its name is taken or its superclass is missing. */
    method Register(target: Class) returns (ok: bool)
      requires Valid()
      modifies this
      ensures Valid()
      ensures ok <==> target.name !in old(classes) && (target.super == "" || target.super in old(classes))
      ensures classes == if ok then old(classes)[target.name := target] else old(classes)
      ensures ok ==> forall n :: n in old(classes) ==> rank[n] == old(rank)[n]
    {
      ok := false;
      if target.name in classes { return; }
      if target.super != "" && target.super !in classes { return; }
      ok := true;
      ghost var was := rank;
      classes, rank := classes[target.name := target], rank[target.name := |rank|];
      assert rank.Keys == was.Keys + {target.name};
      assert |rank.Keys| == |was.Keys| + 1;
    }

    /** The operator method of a class: the most derived definition. */
    method FindOperatorMethod(owner: string, op: nat) returns (found: seq<nat>)
      requires Valid() && owner in classes
      ensures found == FirstDefinition(Chain(classes, rank, owner), op)
    {
      found := [];
      var current := owner;
      var ended := false;
      while !ended && found == []
        invariant current in classes
        invariant FirstDefinition(Chain(classes, rank, owner), op)
          == if ended || found != [] then found else FirstDefinition(Chain(classes, rank, current), op)
        decreases if ended then 0 else rank[current] + 1, found == []
      {
        var c := classes[current];
        if op in c.operators {
          found := [c.operators[op]];
        } else if c.super != "" {
          assert Chain(classes, rank, current)[1..] == Chain(classes, rank, c.super);
          current := c.super;
        } else {
          assert Chain(classes, rank, current)[1..] == [];
          ended := true;
        }
      }
    }
  }
}
